/** The sweeps of the channel table, as runs of the state machine the run theorems are about: slot by slot, each does
    what enabled steps do. */
module ChannelSweeps {
  import opened Wire
  import opened Channels
  import opened ChannelRuns
  import opened ChannelTable
  import opened ChannelSafety
  import opened ChannelTheorems

  /** `sys'` is `sys` with `eff` on slot `c` of endpoint `e`, whose sockets are now `socks`; nothing else changed. */
  ghost predicate Shows(sys: System, sys': System, e: End, c: nat, eff: Effect, socks: seq<Socket>)
    requires c < |At(sys, e).channels|
  {
    && At(sys', e).channels == At(sys, e).channels[c := eff.ch]
    && At(sys', e).wire == At(sys, e).wire + eff.out
    && At(sys', e).got == At(sys, e).got
    && At(sys', e).socks == socks
    && At(sys', Peer(e)) == At(sys, Peer(e))
    && Connections(sys') == Connections(sys)
    && sys'.fault == First(sys.fault, eff.fault)
  }

  /** Preparing a slot is a step of a run, or does nothing. */
  lemma PrepareIsAStep(compat13: bool, maxsize: nat, sys: System, e: End, c: nat)
    requires sys.fault.NoFault? && c < |At(sys, e).channels|
    ensures var ch := At(sys, e).channels[c]; var eff := PrepareSelect(compat13, ch);
      if eff == Effect(ch, [], NoFault) then Shows(sys, sys, e, c, eff, At(sys, e).socks)
      else Enabled(compat13, maxsize, sys, Prepare(e, c)) &&
           Shows(sys, Next(compat13, maxsize, sys, Prepare(e, c)), e, c, eff, At(sys, e).socks)
  {
    hide PrepareSelect;
  }

  /** Polling a slot is a step of a run whenever some poll of the slot is enabled, and otherwise does nothing. */
  lemma PollIsAStep(compat13: bool, interactive: bool, maxsize: nat, sys: System, e: End, c: nat)
    requires sys.fault.NoFault? && c < |At(sys, e).channels| && maxsize >= 2
    ensures var ch := At(sys, e).channels[c]; var eff := PollOne(compat13, interactive, maxsize, ch);
      var a := Poll(e, c, ChunkSize(interactive, maxsize, |ch.input|));
      && ((exists n :: Enabled(compat13, maxsize, sys, Poll(e, c, n))) <==> Enabled(compat13, maxsize, sys, a))
      && if Enabled(compat13, maxsize, sys, a) then
           Shows(sys, Next(compat13, maxsize, sys, a), e, c, eff, At(sys, e).socks)
         else
           eff == Effect(ch, [], NoFault) && Shows(sys, sys, e, c, eff, At(sys, e).socks)
  {
  }

  /** The socket of slot `ch` after the loop: what it gave has been read, and what it took of the slot's output has been
      written, unless the read found the end. */
  function Moved(s: Socket, ch: Channel, r: Ready<seq<byte>>, w: Ready<nat>): Socket
    requires w.Ready? ==> w.value <= |ch.output|
  {
    var read := if r.Ready? then s.(read := s.read + r.value, ended := s.ended || r.value == []) else s;
    if w.Ready? && !(r.Ready? && r.value == []) then
      read.(written := s.written + ch.output[..w.value], failed := s.failed || w.value == 0)
    else read
  }

  function MovedAt(socks: seq<Socket>, ch: Channel, r: Ready<seq<byte>>, w: Ready<nat>): seq<Socket>
    requires w.Ready? ==> w.value <= |ch.output|
  {
    Touch(socks, ch, Moved(SocketOf(socks, ch), ch, r, w))
  }

  /** What select reported ready is read and then written, each of them a step of a run: a socket that was selected for
      writing still is after the read, unless the read ended the input, and then the program does not write. */
  lemma AfterSelectIsSteps(compat13: bool, maxsize: nat, sys: System, e: End, c: nat, r: Ready<seq<byte>>,
                           w: Ready<nat>)
    requires sys.fault.NoFault? && c < |At(sys, e).channels|
    requires r.Ready? ==> ReadSelected(compat13, maxsize, At(sys, e).channels[c])
    requires w.Ready? ==> WriteSelected(compat13, At(sys, e).channels[c]) && w.value <= |At(sys, e).channels[c].output|
    requires compat13 || !At(sys, e).channels[c].ctype.OutputDraining?
    ensures var eff := AfterSelect(compat13, At(sys, e).channels[c], r, w);
      && (r.Ready? ==> Enabled(compat13, maxsize, sys, Read(e, c, r.value)))
      && var read := if r.Ready? then Next(compat13, maxsize, sys, Read(e, c, r.value)) else sys;
      var socks := MovedAt(At(sys, e).socks, At(sys, e).channels[c], r, w);
      if w.Ready? && !(r.Ready? && r.value == []) then
        Enabled(compat13, maxsize, read, Write(e, c, w.value)) &&
        Shows(sys, Next(compat13, maxsize, read, Write(e, c, w.value)), e, c, eff, socks)
      else
        Shows(sys, read, e, c, eff, socks)
  {
    hide WriteFailed, ReadFailed;
  }

  /** The draining states of protocol 1.3, on which the sweeps of 1.5 would end the program, never occur under 1.5. */
  lemma NeverDraining(maxsize: nat, trace: seq<System>, acts: seq<Action>, n: nat, e: End, c: nat)
    requires IsRun(false, maxsize, trace, acts) && n < |trace| && c < |At(trace[n], e).channels|
    ensures var ch := At(trace[n], e).channels[c]; !ch.ctype.OutputDraining? && !ch.ctype.InputDraining?
  {
    hide Next, Enabled;
    SlotReuseIsSafe(false, maxsize, trace, acts, n, e);
    var ch := At(trace[n], e).channels[c];
    if ch.ctype.OutputDraining? || ch.ctype.InputDraining? {
      PrepareIsAStep(false, maxsize, trace[n], e, c);
      var longer := trace[..n+1] + [Next(false, maxsize, trace[n], Prepare(e, c))];
      assert IsRun(false, maxsize, longer, acts[..n] + [Prepare(e, c)]);
      SlotReuseIsSafe(false, maxsize, longer, acts[..n] + [Prepare(e, c)], n + 1, e);
    }
  }

  // ---------------------------------------------------------------- whole sweeps

  /** A run goes on with any enabled action, and reports no fault. */
  lemma RunGoesOn(compat13: bool, maxsize: nat, trace: seq<System>, acts: seq<Action>, a: Action)
    requires IsRun(compat13, maxsize, trace, acts) && Enabled(compat13, maxsize, trace[|acts|], a)
    ensures var next := Next(compat13, maxsize, trace[|acts|], a);
      IsRun(compat13, maxsize, trace + [next], acts + [a]) && next.fault.NoFault?
  {
    hide Next, Enabled;
    var next := Next(compat13, maxsize, trace[|acts|], a);
    assert IsRun(compat13, maxsize, trace + [next], acts + [a]);
    SlotReuseIsSafe(compat13, maxsize, trace + [next], acts + [a], |acts| + 1, Client);
  }

  /** `sys'` is `sys` after a sweep of endpoint `e` has come to slot `n`. */
  ghost predicate SweptTo(sys: System, sys': System, e: End, effs: seq<Effect>, n: nat) {
    var h, h' := At(sys, e), At(sys', e);
    && n <= |h.channels| == |h'.channels| == |effs|
    && (forall j :: 0 <= j < n ==> h'.channels[j] == effs[j].ch)
    && (forall j :: n <= j < |effs| ==> h'.channels[j] == h.channels[j])
    && h'.wire == h.wire + Outs(effs[..n]) && h'.got == h.got && h'.socks == h.socks
    && At(sys', Peer(e)) == At(sys, Peer(e)) && Connections(sys') == Connections(sys)
    && Faults(effs[..n]).NoFault?
  }

  lemma SweptOneMore(sys: System, sys': System, sys'': System, e: End, effs: seq<Effect>, n: nat)
    requires SweptTo(sys, sys', e, effs, n) && n < |effs| && sys'.fault.NoFault? && sys''.fault.NoFault?
    requires Shows(sys', sys'', e, n, effs[n], At(sys', e).socks)
    ensures SweptTo(sys, sys'', e, effs, n + 1)
  {
    SweepOneMore(effs, n, At(sys, e).wire, NoFault);
  }

  lemma SweptNothing(sys: System, e: End, effs: seq<Effect>)
    requires |effs| == |At(sys, e).channels|
    ensures SweptTo(sys, sys, e, effs, 0)
  {
    SweepBegins(effs, At(sys, e).wire, NoFault);
  }

  /** From any state of a run, the prepare sweep goes on with the run, slot by slot. */
  lemma {:induction false} PrepareSweepRuns(compat13: bool, maxsize: nat, trace: seq<System>, acts: seq<Action>,
                                            e: End, n: nat)
    returns (trace': seq<System>, acts': seq<Action>)
    requires IsRun(compat13, maxsize, trace, acts) && n <= |At(trace[|acts|], e).channels|
    ensures IsRun(compat13, maxsize, trace', acts') && trace <= trace' && acts <= acts'
    ensures SweptTo(trace[|acts|], trace'[|acts'|], e, Prepared(compat13, At(trace[|acts|], e).channels), n)
  {
    hide SweptTo, Shows, Next, Enabled, PrepareSelect;
    var sys := trace[|acts|];
    var effs := Prepared(compat13, At(sys, e).channels);
    if n == 0 {
      SweptNothing(sys, e, effs);
      return trace, acts;
    }
    trace', acts' := PrepareSweepRuns(compat13, maxsize, trace, acts, e, n - 1);
    var sys' := trace'[|acts'|];
    SlotReuseIsSafe(compat13, maxsize, trace', acts', |acts'|, e);
    SweptSlot(sys, sys', e, effs, n - 1);
    PrepareIsAStep(compat13, maxsize, sys', e, n - 1);
    if effs[n-1] == Effect(At(sys, e).channels[n-1], [], NoFault) {
      SweptOneMore(sys, sys', sys', e, effs, n - 1);
    } else {
      RunGoesOn(compat13, maxsize, trace', acts', Prepare(e, n - 1));
      SweptOneMore(sys, sys', Next(compat13, maxsize, sys', Prepare(e, n - 1)), e, effs, n - 1);
      trace', acts' := trace' + [Next(compat13, maxsize, sys', Prepare(e, n - 1))], acts' + [Prepare(e, n - 1)];
    }
  }

  lemma SweptSlot(sys: System, sys': System, e: End, effs: seq<Effect>, n: nat)
    requires SweptTo(sys, sys', e, effs, n) && n < |effs|
    ensures n < |At(sys, e).channels| == |At(sys', e).channels| && At(sys', e).channels[n] == At(sys, e).channels[n]
  {
  }

  /** From any state of a run, the output poll goes on with the run, slot by slot. */
  lemma {:induction false} PollSweepRuns(compat13: bool, interactive: bool, maxsize: nat, trace: seq<System>,
                                         acts: seq<Action>, e: End, n: nat)
    returns (trace': seq<System>, acts': seq<Action>)
    requires IsRun(compat13, maxsize, trace, acts) && n <= |At(trace[|acts|], e).channels| && maxsize >= 2
    ensures IsRun(compat13, maxsize, trace', acts') && trace <= trace' && acts <= acts'
    ensures SweptTo(trace[|acts|], trace'[|acts'|], e,
                    Polled(compat13, interactive, maxsize, At(trace[|acts|], e).channels), n)
  {
    hide SweptTo, Shows, Next, Enabled, PollOne;
    var sys := trace[|acts|];
    var effs := Polled(compat13, interactive, maxsize, At(sys, e).channels);
    if n == 0 {
      SweptNothing(sys, e, effs);
      return trace, acts;
    }
    trace', acts' := PollSweepRuns(compat13, interactive, maxsize, trace, acts, e, n - 1);
    var sys' := trace'[|acts'|];
    SlotReuseIsSafe(compat13, maxsize, trace', acts', |acts'|, e);
    SweptSlot(sys, sys', e, effs, n - 1);
    PollIsAStep(compat13, interactive, maxsize, sys', e, n - 1);
    var a := Poll(e, n - 1, ChunkSize(interactive, maxsize, |At(sys, e).channels[n-1].input|));
    if !Enabled(compat13, maxsize, sys', a) {
      SweptOneMore(sys, sys', sys', e, effs, n - 1);
    } else {
      RunGoesOn(compat13, maxsize, trace', acts', a);
      SweptOneMore(sys, sys', Next(compat13, maxsize, sys', a), e, effs, n - 1);
      trace', acts' := trace' + [Next(compat13, maxsize, sys', a)], acts' + [a];
    }
  }

  /** Endpoint `e` of `sys'` is as table `t` and sockets `socks` say, nothing having arrived since `sys`; the other end
      has done nothing. */
  ghost predicate SitsAt(sys: System, sys': System, e: End, t: Table, socks: seq<Socket>) {
    && At(sys', e).channels == t.channels && At(sys', e).wire == t.sent && t.fault.NoFault?
    && Connections(sys') == t.next >= Connections(sys)
    && At(sys', e).got == At(sys, e).got && At(sys', e).socks == socks
    && At(sys', Peer(e)) == Onlooker(At(sys, Peer(e)), t.next - Connections(sys))
  }

  /** Sockets for `more` new connections. */
  function WithQuiet(socks: seq<Socket>, more: nat): seq<Socket> {
    socks + seq(more, _ => QuietSocket)
  }

  /** An endpoint that has done nothing is given the sockets of new connections. */
  function Onlooker(h: Host, more: nat): Host {
    h.(socks := WithQuiet(h.socks, more))
  }

  /** The sockets after the loop at slot `c`. */
  function SocksAfterStep(t: Table, socks: seq<Socket>, c: nat, r: Ready<seq<byte>>, w: Ready<nat>): seq<Socket>
    requires c < |t.channels|
  {
    var ch := t.channels[c];
    if ch.ctype.PortListener? then if r.Ready? then socks + [QuietSocket] else socks
    else MovedAt(socks, ch, r, CappedAt(w, ch))
  }

  /** The sockets after the first `n` slots of the loop. */
  function SocksAfterAll(compat13: bool, t: Table, socks: seq<Socket>, gave: seq<Ready<seq<byte>>>,
                         took: seq<Ready<nat>>, n: nat): seq<Socket>
    requires n <= |gave| && n <= |took| && n <= |t.channels|
  {
    if n == 0 then socks
    else
      SocksAfterStep(AfterAll(compat13, t, gave, took, n - 1), SocksAfterAll(compat13, t, socks, gave, took, n - 1),
                     n - 1, gave[n-1], took[n-1])
  }

  lemma ShowsSits(compat13: bool, sys: System, sys': System, sys'': System, e: End, t: Table,
                  socks: seq<Socket>, c: nat, eff: Effect, socks': seq<Socket>)
    requires SitsAt(sys, sys', e, t, socks) && c < |t.channels| && Shows(sys', sys'', e, c, eff, socks')
    requires sys'.fault.NoFault? && sys''.fault.NoFault?
    ensures SitsAt(sys, sys'', e, t.(channels := t.channels[c := eff.ch], sent := t.sent + eff.out,
                                     fault := First(t.fault, eff.fault)), socks')
  {
  }

  /** The loop after select at one slot goes on with the run by at most two steps. */
  lemma AfterStepRuns(compat13: bool, maxsize: nat, trace: seq<System>, acts: seq<Action>, sys: System, e: End,
                      t: Table, socks: seq<Socket>, c: nat, r: Ready<seq<byte>>, w: Ready<nat>)
    returns (trace': seq<System>, acts': seq<Action>)
    requires IsRun(compat13, maxsize, trace, acts) && SitsAt(sys, trace[|acts|], e, t, socks) && c < |t.channels|
    requires r.Ready? ==> SelectsRead(compat13, maxsize, t.channels[c])
    requires w.Ready? ==> WriteSelected(compat13, t.channels[c]) && w.value <= |t.channels[c].output|
    ensures IsRun(compat13, maxsize, trace', acts') && trace <= trace' && acts <= acts'
    ensures SitsAt(sys, trace'[|acts'|], e, AfterStep(compat13, t, c, r, w), SocksAfterStep(t, socks, c, r, w))
  {
    hide AfterSelect, Shows, Next, WriteSelected, ReadSelected;
    trace', acts' := trace, acts;
    var sys' := trace[|acts|];
    SlotReuseIsSafe(compat13, maxsize, trace, acts, |acts|, e);
    if t.channels[c].ctype.PortListener? {
      if r.Ready? {
        RunGoesOn(compat13, maxsize, trace, acts, OpenRequest(e));
        RequestSits(compat13, maxsize, sys, sys', e, t, socks);
        trace', acts' := trace + [Next(compat13, maxsize, sys', OpenRequest(e))], acts + [OpenRequest(e)];
      }
      return;
    }
    if !compat13 {
      NeverDraining(maxsize, trace, acts, |acts|, e, c);
    }
    AfterSelectIsSteps(compat13, maxsize, sys', e, c, r, w);
    var eff := AfterSelect(compat13, t.channels[c], r, w);
    if r.Ready? {
      RunGoesOn(compat13, maxsize, trace', acts', Read(e, c, r.value));
      trace', acts' := trace' + [Next(compat13, maxsize, sys', Read(e, c, r.value))], acts' + [Read(e, c, r.value)];
    }
    var read := trace'[|acts'|];
    if w.Ready? && !(r.Ready? && r.value == []) {
      RunGoesOn(compat13, maxsize, trace', acts', Write(e, c, w.value));
      trace', acts' := trace' + [Next(compat13, maxsize, read, Write(e, c, w.value))], acts' + [Write(e, c, w.value)];
    }
    ShowsSits(compat13, sys, sys', trace'[|acts'|], e, t, socks, c, eff, MovedAt(socks, t.channels[c], r, w));
  }

  /** Accepting a connection is a request of the state machine. */
  lemma RequestSits(compat13: bool, maxsize: nat, sys: System, sys': System, e: End, t: Table, socks: seq<Socket>)
    requires SitsAt(sys, sys', e, t, socks) && sys'.fault.NoFault?
    ensures SitsAt(sys, Next(compat13, maxsize, sys', OpenRequest(e)), e,
                   Table(Allocated(t.channels, NewChannel(Opening, t.next)),
                         t.sent + [PortOpen(AllocatedSlot(t.channels), t.next)], t.fault, t.next + 1),
                   socks + [QuietSocket])
  {
  }

  /** From any state of a run, the sweep after select goes on with the run, slot by slot. */
  lemma {:induction false} AfterSweepRuns(compat13: bool, maxsize: nat, trace: seq<System>, acts: seq<Action>, e: End,
                                          gave: seq<Ready<seq<byte>>>, took: seq<Ready<nat>>, n: nat)
    returns (trace': seq<System>, acts': seq<Action>)
    requires IsRun(compat13, maxsize, trace, acts)
    requires Reported(compat13, maxsize, At(trace[|acts|], e).channels, gave, took) && n <= |gave|
    ensures IsRun(compat13, maxsize, trace', acts') && trace <= trace' && acts <= acts'
    ensures var sys := trace[|acts|]; var h := At(sys, e);
      && n <= |gave| == |took| == |h.channels|
      && SitsAt(sys, trace'[|acts'|], e,
                AfterAll(compat13, Table(h.channels, h.wire, NoFault, Connections(sys)), gave, took, n),
                SocksAfterAll(compat13, Table(h.channels, h.wire, NoFault, Connections(sys)), h.socks, gave, took, n))
  {
    hide SitsAt, AfterStep, SocksAfterStep, Reported, Ahead, SelectsRead, WriteSelected;
    var sys := trace[|acts|];
    var t := Table(At(sys, e).channels, At(sys, e).wire, NoFault, Connections(sys));
    SelectLengths(compat13, maxsize, t.channels, gave, took);
    if n == 0 {
      SitsAtFirst(sys, e);
      return trace, acts;
    }
    trace', acts' := AfterSweepRuns(compat13, maxsize, trace, acts, e, gave, took, n - 1);
    var before := AfterAll(compat13, t, gave, took, n - 1);
    var socks := SocksAfterAll(compat13, t, At(sys, e).socks, gave, took, n - 1);
    AfterAllAhead(compat13, t, gave, took, n - 1);
    ReportedSlot(compat13, maxsize, t.channels, before.channels, gave, took, n - 1);
    trace', acts' := AfterStepRuns(compat13, maxsize, trace', acts', sys, e, before, socks, n - 1, gave[n-1],
                                   took[n-1]);
  }

  lemma SitsAtFirst(sys: System, e: End)
    ensures SitsAt(sys, sys, e, Table(At(sys, e).channels, At(sys, e).wire, NoFault, Connections(sys)),
                   At(sys, e).socks)
  {
  }

  // ---------------------------------------------------------------- what the sweep after select comes to

  /** Each slot in use has a socket of its own. */
  ghost predicate OwnSockets(channels: seq<Channel>, n: nat) {
    && (forall i :: 0 <= i < |channels| && Occupied(channels[i]) ==> channels[i].conn < n)
    && (forall i, j :: 0 <= i < j < |channels| && Occupied(channels[i]) && Occupied(channels[j]) ==>
          channels[i].conn != channels[j].conn)
  }

  function CappedAt(w: Ready<nat>, ch: Channel): Ready<nat> {
    if w.Ready? && w.value <= |ch.output| then w else NotReady
  }

  lemma NothingMoves(socks: seq<Socket>, ch: Channel)
    ensures MovedAt(socks, ch, NotReady, NotReady) == socks
  {
  }

  /** The loop at one slot leaves the sockets of other slots alone. */
  lemma OthersKeep(t: Table, socks: seq<Socket>, c: nat, r: Ready<seq<byte>>, w: Ready<nat>, k: nat)
    requires c < |t.channels| && k < |socks|
    requires t.channels[c].ctype.PortListener? || t.channels[c].conn != k || (r.NotReady? && w.NotReady?)
    ensures var socks' := SocksAfterStep(t, socks, c, r, w); k < |socks'| && socks'[k] == socks[k]
  {
    hide Moved;
    NothingMoves(socks, t.channels[c]);
  }

  /** After the first `n` slots of the loop, every socket of a slot in use has given and taken exactly what it was
      reported to, if its slot is among them, and nothing otherwise. */
  lemma {:induction false} SocketsServed(compat13: bool, maxsize: nat, t: Table, socks: seq<Socket>,
                                         gave: seq<Ready<seq<byte>>>, took: seq<Ready<nat>>, n: nat, c: nat)
    requires Reported(compat13, maxsize, t.channels, gave, took) && OwnSockets(t.channels, |socks|)
    requires n <= |gave| == |took| == |t.channels| && c < |t.channels| && Occupied(t.channels[c])
    ensures var ch := t.channels[c]; var socks' := SocksAfterAll(compat13, t, socks, gave, took, n);
      && ch.conn < |socks| <= |socks'|
      && socks'[ch.conn]
         == if c < n then Moved(socks[ch.conn], ch, gave[c], CappedAt(took[c], ch)) else socks[ch.conn]
  {
    hide AfterStep, Reported, Ahead, Moved;
    if n > 0 {
      SocketsServed(compat13, maxsize, t, socks, gave, took, n - 1, c);
      var before := AfterAll(compat13, t, gave, took, n - 1);
      var now := SocksAfterAll(compat13, t, socks, gave, took, n - 1);
      AfterAllAhead(compat13, t, gave, took, n - 1);
      ReportedSlot(compat13, maxsize, t.channels, before.channels, gave, took, n - 1);
      if c != n - 1 {
        OthersKeep(before, now, n - 1, gave[n-1], took[n-1], t.channels[c].conn);
      }
      SocketsStay(before, now, n - 1, gave[n-1], took[n-1]);
    }
  }

  /** A socket that no slot is using gives and takes nothing. */
  lemma {:induction false} UnusedSocketKeeps(compat13: bool, maxsize: nat, t: Table, socks: seq<Socket>,
                                             gave: seq<Ready<seq<byte>>>, took: seq<Ready<nat>>, n: nat, k: nat)
    requires Reported(compat13, maxsize, t.channels, gave, took) && k < |socks|
    requires forall i :: 0 <= i < |t.channels| && Occupied(t.channels[i]) ==> t.channels[i].conn != k
    requires n <= |gave| == |took| == |t.channels|
    ensures var socks' := SocksAfterAll(compat13, t, socks, gave, took, n);
      |socks| <= |socks'| && socks'[k] == socks[k]
  {
    hide AfterStep, Reported, Ahead, Moved;
    if n > 0 {
      UnusedSocketKeeps(compat13, maxsize, t, socks, gave, took, n - 1, k);
      var before := AfterAll(compat13, t, gave, took, n - 1);
      var now := SocksAfterAll(compat13, t, socks, gave, took, n - 1);
      AfterAllAhead(compat13, t, gave, took, n - 1);
      ReportedSlot(compat13, maxsize, t.channels, before.channels, gave, took, n - 1);
      OthersKeep(before, now, n - 1, gave[n-1], took[n-1], k);
      SocketsStay(before, now, n - 1, gave[n-1], took[n-1]);
    }
  }

  lemma SocketsStay(t: Table, socks: seq<Socket>, c: nat, r: Ready<seq<byte>>, w: Ready<nat>)
    requires c < |t.channels|
    ensures |SocksAfterStep(t, socks, c, r, w)| >= |socks|
  {
  }

  /** How many of the first `n` slots are listeners with a connection to accept. */
  function Knocks(channels: seq<Channel>, gave: seq<Ready<seq<byte>>>, n: nat): nat
    requires n <= |channels|
  {
    if n == 0 then 0
    else
      Knocks(channels, gave, n - 1)
      + if channels[n-1].ctype.PortListener? && n <= |gave| && gave[n-1].Ready? then 1 else 0
  }

  /** Every listener that is ready accepts a connection, and nothing else opens one. */
  lemma {:induction false} EveryKnockIsAnswered(compat13: bool, maxsize: nat, t: Table, gave: seq<Ready<seq<byte>>>,
                                                took: seq<Ready<nat>>, n: nat)
    requires Reported(compat13, maxsize, t.channels, gave, took) && n <= |gave| == |took| == |t.channels|
    ensures AfterAll(compat13, t, gave, took, n).next == t.next + Knocks(t.channels, gave, n)
  {
    hide Reported, Ahead, AfterSelect, Allocated;
    if n > 0 {
      EveryKnockIsAnswered(compat13, maxsize, t, gave, took, n - 1);
      AfterAllAhead(compat13, t, gave, took, n - 1);
      ReportedSlot(compat13, maxsize, t.channels, AfterAll(compat13, t, gave, took, n - 1).channels, gave, took, n - 1);
    }
  }
}
