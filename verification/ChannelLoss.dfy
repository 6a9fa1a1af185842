/** What protocol 1.3 loses: a side whose socket comes to the end of its input stops writing as well, so that what it
    holds and what is still to arrive is thrown away. */
module ChannelLoss {
  import opened Wire
  import opened Channels
  import opened ChannelRuns
  import opened Connection
  import opened ChannelSafety
  import opened ChannelTheorems

  // ---------------------------------------------------------------- runs only add

  /** Streams only grow. */
  ghost predicate Grows(sys: System, sys': System, e: End) {
    At(sys, e).wire <= At(sys', e).wire && At(sys, e).got <= At(sys', e).got && Connections(sys) <= Connections(sys')
  }

  lemma AffectGrows(sys: System, a: End, c: nat, eff: Effect, s: Socket, e: End)
    requires c < |At(sys, a).channels|
    ensures Grows(sys, Affect(sys, a, c, eff, s), e)
  {
  }

  lemma LocalGrows(compat13: bool, maxsize: nat, sys: System, a: Action, e: End)
    requires Local(a) && Enabled(compat13, maxsize, sys, a)
    ensures Grows(sys, Next(compat13, maxsize, sys, a), e)
  {
    hide LocalEffect, LocalSocket, Affect, Next, Grows;
    var ch := At(sys, a.e).channels[a.c];
    LocalNext(compat13, maxsize, sys, a);
    AffectGrows(sys, a.e, a.c, LocalEffect(compat13, ch, a), LocalSocket(ch, SocketOf(At(sys, a.e).socks, ch), a), e);
  }

  lemma DeliveryGrows(compat13: bool, sys: System, f: End, connected: bool, e: End)
    requires Pending(sys, f)
    ensures Grows(sys, Receive(compat13, sys, f, connected), e)
  {
    hide Arrival, Allocated, AllocatedSlot;
  }

  lemma StepGrows(compat13: bool, maxsize: nat, sys: System, a: Action, e: End)
    requires Enabled(compat13, maxsize, sys, a)
    ensures Grows(sys, Next(compat13, maxsize, sys, a), e)
  {
    hide Receive, Allocated, AllocatedSlot, PrepareSelect, SocketRead, SocketWrite, OutputPoll, Affect;
    if Local(a) {
      LocalGrows(compat13, maxsize, sys, a, e);
    } else if a.Deliver? {
      DeliveryGrows(compat13, sys, a.e, a.connected, e);
    }
  }

  lemma {:induction false} RunGrows(compat13: bool, maxsize: nat, trace: seq<System>, acts: seq<Action>, m: nat,
                                    n: nat, e: End)
    requires IsRun(compat13, maxsize, trace, acts) && m <= n < |trace|
    ensures Grows(trace[m], trace[n], e)
    decreases n
  {
    hide Next, Enabled;
    if m < n {
      RunGrows(compat13, maxsize, trace, acts, m, n - 1, e);
      StepGrows(compat13, maxsize, trace[n-1], acts[n-1], e);
    }
  }

  // ---------------------------------------------------------------- an ended side writes no more

  /** A side whose input has ended holds nothing to write. */
  lemma EndedHoldsNothing(k: nat, c: Conn, e: End)
    requires Inv(k, true, c) && SideAt(c, e).sock.ended && SideAt(c, e).life.Live?
    ensures SideAt(c, e).ch.output == []
  {
    hide DataOf, Closes, Confirmations, NoDataAfterClose, ConfirmationIsLast;
  }

  /** Only a write to it changes a socket that has ended. */
  lemma OnlyWritesCount(maxsize: nat, sys: System, a: Action, k: nat, e: End)
    requires Enabled(true, maxsize, sys, a) && k < |At(sys, e).socks| && At(sys, e).socks[k].ended
    requires a.Write? && a.e == e ==> At(sys, e).channels[a.c].conn != k
    ensures var socks, socks' := At(sys, e).socks, At(Next(true, maxsize, sys, a), e).socks;
      |socks'| > k && socks'[k].(read := []) == socks[k].(read := [])
  {
    hide Allocated, AllocatedSlot, LocalEffect, Arrival;
    if Local(a) {
      LocalNext(true, maxsize, sys, a);
    }
  }

  /** So its socket is not written again. */
  lemma EndedStays(maxsize: nat, conns: seq<Conn>, sys: System, a: Action, k: nat, e: End)
    requires Describes(true, conns, sys) && Enabled(true, maxsize, sys, a) && k < Connections(sys)
    requires |At(sys, e).socks| == Connections(sys) && At(sys, e).socks[k].ended
    ensures var socks, socks' := At(sys, e).socks, At(Next(true, maxsize, sys, a), e).socks;
      |socks'| > k && socks'[k].(read := []) == socks[k].(read := [])
  {
    hide Describes, Inv, Next;
    if a.Write? && a.e == e && At(sys, e).channels[a.c].conn == k {
      Occupant(true, conns, sys, e, a.c);
      EndedHoldsNothing(k, conns[k], e);
      assert false;
    }
    OnlyWritesCount(maxsize, sys, a, k, e);
  }

  lemma {:induction false} EndedRunStays(maxsize: nat, trace: seq<System>, acts: seq<Action>, m: nat, n: nat, k: nat,
                                         e: End)
    requires IsRun(true, maxsize, trace, acts) && m <= n < |trace| && k < Connections(trace[m])
    requires |At(trace[m], e).socks| > k && At(trace[m], e).socks[k].ended
    ensures |At(trace[n], e).socks| > k
    ensures At(trace[n], e).socks[k].(read := []) == At(trace[m], e).socks[k].(read := [])
    decreases n
  {
    hide Next, Enabled;
    if m < n {
      EndedRunStays(maxsize, trace, acts, m, n - 1, k, e);
      RunGrows(true, maxsize, trace, acts, m, n - 1, e);
      var conns := RunDescribed(true, maxsize, trace, acts, n - 1);
      SideInOrder(true, conns, trace[n-1], k, e);
      EndedStays(maxsize, conns, trace[n-1], acts[n-1], k, e);
    }
  }

  // ---------------------------------------------------------------- the end of input

  /** The socket of connection `k` at endpoint `e`, in slot `c`, is read and found to be at its end. */
  predicate EndsAt(sys: System, a: Action, k: nat, e: End) {
    a.Read? && a.e == e && a.data == [] && a.c < |At(sys, e).channels| && At(sys, e).channels[a.c].conn == k
  }

  /** The side is open until then: it has written, or holds, all that came. */
  lemma OpenHoldsAll(k: nat, maxsize: nat, c: Conn, e: End)
    requires Inv(k, true, c) && SideAt(c, e).life.Live? && SideAt(c, e).ch.ctype.Open?
    ensures var s, t := SideAt(c, e), SideAt(c, Peer(e));
      && s.got <= |t.sent| && !s.sock.failed && !s.sock.ended
      && s.sock.written + s.ch.output == DataOf(t.sent[..s.got])
  {
    hide DataOf, Closes, Confirmations, NoDataAfterClose, ConfirmationIsLast;
  }

  lemma EndingRead(maxsize: nat, conns: seq<Conn>, sys: System, a: Action, k: nat, e: End)
    requires Describes(true, conns, sys) && Enabled(true, maxsize, sys, a) && k < Connections(sys)
    requires EndsAt(sys, a, k, e)
    ensures |At(sys, e).socks| == |At(sys, Peer(e)).socks| == Connections(sys)
    ensures At(sys, e).got <= |At(sys, Peer(e)).wire|
    ensures var ch, sock := At(sys, e).channels[a.c], At(sys, e).socks[k];
      && sock.written + ch.output == DataOf(HeardPackets(sys, e, k)) && !sock.failed
      && var socks' := At(Next(true, maxsize, sys, a), e).socks;
      |socks'| > k && socks'[k] == sock.(ended := true)
  {
    hide Inv, Of, DataOf, Closes, Confirmations, SocketRead;
    Occupant(true, conns, sys, e, a.c);
    ProcessedPackets(true, conns, sys, k, e);
    OpenHoldsAll(k, maxsize, conns[k], e);
    var sock := At(sys, e).socks[k];
    assert sock.read + [] == sock.read;
  }

  /** Later states have processed at least what earlier ones had. */
  lemma HeardGrows(compat13: bool, maxsize: nat, trace: seq<System>, acts: seq<Action>, m: nat, n: nat, k: nat, e: End)
    requires IsRun(compat13, maxsize, trace, acts) && m <= n < |trace|
    requires At(trace[m], e).got <= |At(trace[m], Peer(e)).wire| && At(trace[n], e).got <= |At(trace[n], Peer(e)).wire|
    ensures DataOf(HeardPackets(trace[m], e, k)) <= DataOf(HeardPackets(trace[n], e, k))
    ensures Connections(trace[m]) <= Connections(trace[n])
  {
    hide DataOf, Of, IsRun;
    RunGrows(compat13, maxsize, trace, acts, m, n, e);
    RunGrows(compat13, maxsize, trace, acts, m, n, Peer(e));
    var before := At(trace[m], Peer(e)).wire[..At(trace[m], e).got];
    var now := At(trace[n], Peer(e)).wire[..At(trace[n], e).got];
    assert before == now[..At(trace[m], e).got];
    OfPrefix(now, At(trace[m], e).got, k);
    var heard, all := Of(before, k), Of(now, k);
    assert heard == all[..|heard|];
    PrefixContains(all, |heard|);
  }

  lemma NoDataYet(k: nat, c: Conn, e: End)
    requires Inv(k, true, c) && (SideAt(c, e).life.Absent? || SideAt(c, Peer(e)).life.Absent?)
    ensures DataOf(SideAt(c, Peer(e)).sent) == []
  {
    hide Half, Closes, Confirmations;
    var sent := SideAt(c, Peer(e)).sent;
    assert |sent| <= 1;
    assert sent != [] ==> sent[..|sent|-1] == [] && !sent[0].Data?;
  }

  /** What a side has processed, its peer had read; once it has processed the close, that is all of it. */
  lemma HeardIsRead(k: nat, c: Conn, e: End)
    requires Inv(k, true, c)
    ensures var s, t := SideAt(c, e), SideAt(c, Peer(e));
      && s.got <= |t.sent| && DataOf(t.sent[..s.got]) <= t.sock.read
      && (Closes(t.sent[..s.got]) == 1 ==> DataOf(t.sent[..s.got]) == t.sock.read)
  {
    hide DataOf, Closes, Confirmations, NoDataAfterClose, ConfirmationIsLast;
    var s, t := SideAt(c, e), SideAt(c, Peer(e));
    PrefixContains(t.sent, s.got);
    if s.life.Absent? || t.life.Absent? {
      ShortHistory(k, true, c, Peer(e));
      NoDataYet(k, c, e);
    } else if Closes(t.sent[..s.got]) == 1 {
      NoDataRemains(t.sent, s.got);
    }
  }

  /** Seen in the table: see `HeardIsRead`. */
  lemma HeardPacketsAreRead(maxsize: nat, trace: seq<System>, acts: seq<Action>, n: nat, k: nat, e: End)
    requires IsRun(true, maxsize, trace, acts) && n < |trace| && k < Connections(trace[n])
    ensures |At(trace[n], e).socks| == |At(trace[n], Peer(e)).socks| == Connections(trace[n])
    ensures At(trace[n], e).got <= |At(trace[n], Peer(e)).wire|
    ensures var heard, from := HeardPackets(trace[n], e, k), At(trace[n], Peer(e)).socks[k];
      DataOf(heard) <= from.read && (Closes(heard) == 1 ==> DataOf(heard) == from.read)
  {
    hide Of, DataOf, Closes, HeardPackets, NothingToWrite;
    var conns := RunDescribed(true, maxsize, trace, acts, n);
    SideInOrder(true, conns, trace[n], k, e);
    ProcessedPackets(true, conns, trace[n], k, e);
    assert Inv(k, true, conns[k]);
    HeardIsRead(k, conns[k], e);
  }

  /** Under protocol 1.3, when a socket comes to the end of its input, what its peer reads before or after reaches it
      entirely exactly when all of it has come already and nothing of that is left to write; no write fails. */
  lemma DataAfterEnd13(maxsize: nat, trace: seq<System>, acts: seq<Action>, m: nat, n: nat, k: nat, e: End)
    requires IsRun(true, maxsize, trace, acts) && m < n < |trace| && k < Connections(trace[m])
    requires EndsAt(trace[m], acts[m], k, e)
    ensures |At(trace[n], Client).socks| == |At(trace[n], Server).socks| == Connections(trace[n]) > k
    ensures At(trace[m], e).got <= |At(trace[m], Peer(e)).wire| && At(trace[n], e).got <= |At(trace[n], Peer(e)).wire|
    ensures var from, to := At(trace[n], Peer(e)).socks[k], At(trace[n], e).socks[k];
      var held, heard := At(trace[m], e).channels[acts[m].c].output, DataOf(HeardPackets(trace[m], e, k));
      && to.ended && !to.failed
      && (to.written == from.read <==> held == [] && heard == from.read)
      && (Closes(HeardPackets(trace[n], e, k)) == 1 ==>
            (to.written == from.read <==> held == [] && heard == DataOf(HeardPackets(trace[n], e, k))))
  {
    hide Of, DataOf, Closes, HeardPackets, Describes, Enabled, Next;
    var conns := RunDescribed(true, maxsize, trace, acts, m);
    EndingRead(maxsize, conns, trace[m], acts[m], k, e);
    RunGrows(true, maxsize, trace, acts, m, m + 1, e);
    RunGrows(true, maxsize, trace, acts, m, n, e);
    EndedRunStays(maxsize, trace, acts, m + 1, n, k, e);
    HeardPacketsAreRead(maxsize, trace, acts, n, k, e);
    HeardGrows(true, maxsize, trace, acts, m, n, k, e);
    AllWritten(At(trace[m], e).socks[k].written, At(trace[m], e).channels[acts[m].c].output,
               DataOf(HeardPackets(trace[m], e, k)), DataOf(HeardPackets(trace[n], e, k)),
               At(trace[n], Peer(e)).socks[k].read);
  }

  lemma AllWritten(written: seq<byte>, held: seq<byte>, heard: seq<byte>, later: seq<byte>, read: seq<byte>)
    requires written + held == heard && heard <= later <= read
    ensures written == read <==> held == [] && heard == read
  {
    if held == [] {
      assert written + held == written;
    }
  }

  /** A socket is at its end only because it was read to its end. */
  lemma {:induction false} EndedByRead(maxsize: nat, trace: seq<System>, acts: seq<Action>, n: nat, k: nat, e: End)
    returns (m: nat)
    requires IsRun(true, maxsize, trace, acts) && n < |trace| && k < |At(trace[n], e).socks|
    requires At(trace[n], e).socks[k].ended
    ensures m < n && k < Connections(trace[m]) && EndsAt(trace[m], acts[m], k, e)
  {
    hide Next, Enabled;
    var conns := RunDescribed(true, maxsize, trace, acts, n - 1);
    HaveSockets(conns, trace[n-1], e);
    if k < |At(trace[n-1], e).socks| && At(trace[n-1], e).socks[k].ended {
      m := EndedByRead(maxsize, trace, acts, n - 1, k, e);
    } else {
      EndedJustNow(maxsize, trace[n-1], acts[n-1], k, e);
      m := n - 1;
    }
  }

  lemma HaveSockets(conns: seq<Conn>, sys: System, e: End)
    requires Describes(true, conns, sys)
    ensures |At(sys, e).socks| == Connections(sys)
  {
  }

  lemma EndedJustNow(maxsize: nat, sys: System, a: Action, k: nat, e: End)
    requires Enabled(true, maxsize, sys, a) && |At(sys, e).socks| == Connections(sys)
    requires k < |At(sys, e).socks| ==> !At(sys, e).socks[k].ended
    requires var socks := At(Next(true, maxsize, sys, a), e).socks; k < |socks| && socks[k].ended
    ensures k < Connections(sys) && EndsAt(sys, a, k, e)
  {
    hide Allocated, AllocatedSlot, LocalEffect, Arrival;
    if Local(a) {
      LocalNext(true, maxsize, sys, a);
    }
  }

  /** Delivery under protocol 1.3, decided for every side: once it has processed its peer's close and has nothing left
      to write, all the bytes have arrived exactly when no write failed, if its own input never ended; if it ended, in
      step `m`, exactly when nothing was left to write then and no data came after. */
  lemma DeliveryDecided13(maxsize: nat, trace: seq<System>, acts: seq<Action>, n: nat, k: nat, e: End) returns (m: nat)
    requires IsRun(true, maxsize, trace, acts) && n < |trace| && k < Connections(trace[n])
    ensures m <= n && |At(trace[n], Client).socks| == |At(trace[n], Server).socks| == Connections(trace[n])
    ensures At(trace[m], e).got <= |At(trace[m], Peer(e)).wire| && At(trace[n], e).got <= |At(trace[n], Peer(e)).wire|
    ensures At(trace[n], e).socks[k].ended ==> m < n && EndsAt(trace[m], acts[m], k, e)
    ensures var from, to := At(trace[n], Peer(e)).socks[k], At(trace[n], e).socks[k];
      Closes(HeardPackets(trace[n], e, k)) == 1 && NothingToWrite(At(trace[n], e).channels, k) ==>
        (to.written == from.read <==>
          if to.ended then
            && At(trace[m], e).channels[acts[m].c].output == []
            && DataOf(HeardPackets(trace[m], e, k)) == DataOf(HeardPackets(trace[n], e, k))
          else !to.failed)
  {
    hide IsRun, Closes, HeardPackets, NothingToWrite, DataOf;
    m := n;
    DataArrives13(maxsize, trace, acts, n, k, e);
    if At(trace[n], e).socks[k].ended {
      m := EndedByRead(maxsize, trace, acts, n, k, e);
      DataAfterEnd13(maxsize, trace, acts, m, n, k, e);
    }
  }

  // ---------------------------------------------------------------- a run that loses a byte

  /** An endpoint whose first slot is `ch` and whose nine others are blank. */
  function Alone(ch: Channel, wire: seq<Packet>, got: nat, sock: Socket): Host {
    Host([ch] + seq(9, _ => BlankChannel()), wire, got, [sock])
  }

  lemma FirstAllocated(ch: Channel)
    ensures AllocatedSlot([]) == 0 && Allocated([], ch) == [ch] + seq(9, _ => BlankChannel())
  {
    assert Grown([]) == seq(10, _ => BlankChannel());
  }

  const OpenPacket: Packet := PortOpen(0, 0)
  const ConfirmPacket: Packet := OpenConfirmation(0, 0, 0)
  const DataPacket: Packet := Data(0, [1], 0)
  const ClosePacket: Packet := Close(0, 0)
  const ClosedPacket: Packet := CloseConfirmation(0, 0)

  const OpenSlot: Channel := Channel(Open, 0, InputOpen, OutputOpen, [], [], 0)

  /** The client asks for a connection and the server accepts it; the server's socket gives a byte, which is sent and
      buffered; before it is written, the client's socket comes to its end. Both sides then tear the connection down. */
  const Losing: seq<Action> := [
    OpenRequest(Client), Deliver(Server, true), Deliver(Client, true),
    Read(Server, 0, [1]), Poll(Server, 0, 1), Deliver(Client, true),
    Read(Client, 0, []), Prepare(Client, 0), Deliver(Server, true), Prepare(Server, 0), Deliver(Client, true)]

  const Lost: seq<System> :=
    var read, ended := Socket([1], [], false, false), Socket([], [], false, true);
    var asking := NewChannel(Opening, 0);
    var sent := [ConfirmPacket, DataPacket];
    [ Start,
      System(Alone(asking, [OpenPacket], 0, QuietSocket), Host([], [], 0, [QuietSocket]), NoFault),
      System(Alone(asking, [OpenPacket], 0, QuietSocket), Alone(OpenSlot, [ConfirmPacket], 1, QuietSocket), NoFault),
      System(Alone(OpenSlot, [OpenPacket], 1, QuietSocket), Alone(OpenSlot, [ConfirmPacket], 1, QuietSocket), NoFault),
      System(Alone(OpenSlot, [OpenPacket], 1, QuietSocket), Alone(OpenSlot.(input := [1]), [ConfirmPacket], 1, read),
             NoFault),
      System(Alone(OpenSlot, [OpenPacket], 1, QuietSocket), Alone(OpenSlot, sent, 1, read), NoFault),
      System(Alone(OpenSlot.(output := [1]), [OpenPacket], 2, QuietSocket), Alone(OpenSlot, sent, 1, read), NoFault),
      System(Alone(OpenSlot.(ctype := InputDraining), [OpenPacket], 2, ended), Alone(OpenSlot, sent, 1, read), NoFault),
      System(Alone(OpenSlot.(ctype := Closed), [OpenPacket, ClosePacket], 2, ended), Alone(OpenSlot, sent, 1, read),
             NoFault),
      System(Alone(OpenSlot.(ctype := Closed), [OpenPacket, ClosePacket], 2, ended),
             Alone(OpenSlot.(ctype := OutputDraining), sent + [ClosedPacket], 2, read), NoFault),
      System(Alone(OpenSlot.(ctype := Closed), [OpenPacket, ClosePacket], 2, ended),
             Alone(OpenSlot.(ctype := Free), sent + [ClosedPacket], 2, read), NoFault),
      System(Alone(OpenSlot.(ctype := Free), [OpenPacket, ClosePacket], 3, ended),
             Alone(OpenSlot.(ctype := Free), sent + [ClosedPacket], 2, read), NoFault)]

  ghost predicate Goes(i: nat)
    requires i < |Losing|
  {
    Enabled(true, 2, Lost[i], Losing[i]) && Lost[i+1] == Next(true, 2, Lost[i], Losing[i])
  }

  lemma Handshake()
    ensures Goes(0) && Goes(1) && Goes(2)
  {
    FirstAllocated(NewChannel(Opening, 0));
    FirstAllocated(OpenSlot);
  }

  lemma ByteIsSent()
    ensures Goes(3) && Goes(4)
  {
    var byteRead: seq<byte> := [1];
    assert [] + byteRead == byteRead && byteRead[..1] == byteRead && byteRead[1..] == [];
  }

  lemma ByteIsBuffered()
    ensures Goes(5)
  {
    var byteRead: seq<byte> := [1];
    assert [] + byteRead == byteRead;
  }

  lemma InputEnds()
    ensures Goes(6)
  {
    var nothing: seq<byte> := [];
    assert nothing + nothing == nothing;
  }

  lemma TearsDown()
    ensures Goes(7) && Goes(8) && Goes(9) && Goes(10)
  {
  }

  lemma Loses()
    ensures IsRun(true, 2, Lost, Losing)
  {
    hide Enabled, Next;
    Handshake();
    ByteIsSent();
    ByteIsBuffered();
    InputEnds();
    TearsDown();
    forall i | 0 <= i < |Losing|
      ensures Goes(i)
    {
    }
  }

  /** A byte is lost though no write fails and the connection is torn down in order: every run that begins like this
      leaves it unwritten for good. */
  lemma ByteIsLost(trace: seq<System>, acts: seq<Action>, n: nat)
    requires IsRun(true, 2, trace, acts) && Lost <= trace && Losing <= acts && |Losing| <= n < |trace|
    ensures IsRun(true, 2, Lost, Losing)
    ensures |trace[n].client.socks| == |trace[n].server.socks| > 0
    ensures var from, to := trace[n].server.socks[0], trace[n].client.socks[0];
      to.written == [] && [1] <= from.read && !to.failed
    ensures forall c :: 0 <= c < 10 ==>
      !Occupied(Lost[|Losing|].client.channels[c]) && !Occupied(Lost[|Losing|].server.channels[c])
  {
    hide Enabled, Next, DataOf, HeardPackets;
    Loses();
    var m := |Losing|;
    assert trace[m] == Lost[m] && acts[6] == Losing[6] && trace[6] == Lost[6];
    EndedRunStays(2, trace, acts, m, n, 0, Client);
    RunGrows(true, 2, trace, acts, m, n, Client);
    HeardPacketsAreRead(2, trace, acts, m, 0, Client);
    HeardPacketsAreRead(2, trace, acts, n, 0, Client);
    HeardGrows(true, 2, trace, acts, m, n, 0, Client);
    ByteWasHeard();
  }

  lemma ByteWasHeard()
    ensures DataOf(HeardPackets(Lost[|Losing|], Client, 0)) == [1]
  {
    HeardInTheEnd();
    var none: seq<Packet> := [];
    Appended(none, ConfirmPacket);
    Appended(none + [ConfirmPacket], DataPacket);
    Appended(none + [ConfirmPacket] + [DataPacket], ClosedPacket);
  }

  lemma HeardInTheEnd()
    ensures HeardPackets(Lost[|Losing|], Client, 0) == [] + [ConfirmPacket] + [DataPacket] + [ClosedPacket]
  {
    var none: seq<Packet> := [];
    assert Lost[|Losing|].server.wire[..3] == none + [ConfirmPacket] + [DataPacket] + [ClosedPacket];
    OfAppend(none, [ConfirmPacket], 0, 0);
    OfAppend(none + [ConfirmPacket], [DataPacket], 0, 0);
    OfAppend(none + [ConfirmPacket] + [DataPacket], [ClosedPacket], 0, 0);
  }
}
