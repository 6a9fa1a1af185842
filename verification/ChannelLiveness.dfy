/** Connections do not get stuck: what select is asked about is what can still move, and a connection of which nothing
    is in flight and nothing is buffered has delivered everything and waits only for its sockets. */
module ChannelLiveness {
  import opened Wire
  import opened Channels
  import opened ChannelRuns
  import opened Connection
  import opened ChannelSafety
  import opened ChannelTheorems
  import opened ChannelProgress

  // ---------------------------------------------------------------- what select is asked about

  /** An open side reads on exactly as long as its socket has not ended and no OCLOSE has come. */
  lemma OpenSide(k: nat, compat13: bool, c: Conn, e: End)
    requires Inv(k, compat13, c) && SideAt(c, e).life.Live? && SideAt(c, e).ch.ctype.Open?
    ensures var s, t := SideAt(c, e), SideAt(c, Peer(e));
      && s.got <= |t.sent|
      && (!s.sock.ended && Confirmations(t.sent[..s.got]) == 0 <==> compat13 || s.ch.istate.InputOpen?)
  {
    hide DataOf, Closes, Confirmations, NoDataAfterClose, ConfirmationIsLast;
  }

  /** What a side holds for its socket can be written. */
  lemma HoldingSide(k: nat, compat13: bool, c: Conn, e: End)
    requires Inv(k, compat13, c) && SideAt(c, e).life.Live? && SideAt(c, e).ch.output != []
    ensures WriteSelected(compat13, SideAt(c, e).ch)
  {
    hide DataOf, Closes, Confirmations, NoDataAfterClose, ConfirmationIsLast;
  }

  /** Endpoint `e` may read on for slot `c`: it is open and has room, its socket has not ended, and no OCLOSE has come
      for it. */
  predicate MayRead(maxsize: nat, sys: System, e: End, c: nat)
    requires c < |At(sys, e).channels| && At(sys, e).got <= |At(sys, Peer(e)).wire|
  {
    var ch := At(sys, e).channels[c];
    && ch.ctype.Open? && |ch.input| < maxsize && !SocketOf(At(sys, e).socks, ch).ended
    && Confirmations(HeardPackets(sys, e, ch.conn)) == 0
  }

  lemma DescribedSelection(compat13: bool, maxsize: nat, conns: seq<Conn>, sys: System, e: End, c: nat)
    requires Describes(compat13, conns, sys) && c < |At(sys, e).channels| && Occupied(At(sys, e).channels[c])
    ensures At(sys, e).got <= |At(sys, Peer(e)).wire|
    ensures ReadSelected(compat13, maxsize, At(sys, e).channels[c]) <==> MayRead(maxsize, sys, e, c)
    ensures WriteSelected(compat13, At(sys, e).channels[c]) <==> At(sys, e).channels[c].output != []
    ensures var ch := At(sys, e).channels[c];
      ch.ctype.Open? ==>
        (!SocketOf(At(sys, e).socks, ch).ended && Confirmations(HeardPackets(sys, e, ch.conn)) == 0
         <==> compat13 || ch.istate.InputOpen?)
  {
    hide Inv, Of, Closes, Confirmations, DataOf;
    var ch := At(sys, e).channels[c];
    Occupant(compat13, conns, sys, e, c);
    ProcessedPackets(compat13, conns, sys, ch.conn, e);
    if ch.ctype.Open? {
      OpenSide(ch.conn, compat13, conns[ch.conn], e);
    }
    if ch.output != [] {
      HoldingSide(ch.conn, compat13, conns[ch.conn], e);
    }
  }

  /** In every state of every run select is asked to read exactly the open slots with room whose socket has not ended
      and for which no OCLOSE has come, and to write exactly the slots that hold something. */
  lemma SelectedExactly(compat13: bool, maxsize: nat, trace: seq<System>, acts: seq<Action>, n: nat, e: End, c: nat)
    requires IsRun(compat13, maxsize, trace, acts) && n < |trace| && c < |At(trace[n], e).channels|
    requires Occupied(At(trace[n], e).channels[c])
    ensures At(trace[n], e).got <= |At(trace[n], Peer(e)).wire|
    ensures ReadSelected(compat13, maxsize, At(trace[n], e).channels[c]) <==> MayRead(maxsize, trace[n], e, c)
    ensures WriteSelected(compat13, At(trace[n], e).channels[c]) <==> At(trace[n], e).channels[c].output != []
  {
    hide IsRun, Describes, ReadSelected, WriteSelected, MayRead;
    assert |trace| > 0;
    var conns := RunDescribed(compat13, maxsize, trace, acts, n);
    DescribedSelection(compat13, maxsize, conns, trace[n], e, c);
  }

  // ---------------------------------------------------------------- at rest

  /** Nothing of connection `k` is in flight, and nothing can be done on a slot of it but read; others may be as busy as
      they like. */
  ghost predicate Still(compat13: bool, maxsize: nat, sys: System, k: nat) {
    && HasHeard(sys, Client, k) && HasHeard(sys, Server, k)
    && forall a: Action :: Local(a) && !a.Read? && Concerns(sys, a, k) ==> !Enabled(compat13, maxsize, sys, a)
  }

  /** Nothing can be done on the slot but read. */
  predicate Unmoved(compat13: bool, ch: Channel) {
    && !PrepareActs(compat13, ch) && !WriteSelected(compat13, ch)
    && (PollEligible(compat13, ch) ==> ch.input == [] && !ch.istate.InputWaitDrain?)
  }

  lemma StillSlot(compat13: bool, maxsize: nat, sys: System, k: nat, e: End, c: nat)
    requires Still(compat13, maxsize, sys, k) && sys.fault.NoFault? && c < |At(sys, e).channels|
    requires At(sys, e).channels[c].conn == k && Occupied(At(sys, e).channels[c])
    ensures Unmoved(compat13, At(sys, e).channels[c])
  {
    hide HasHeard, PrepareSelect;
    var ch := At(sys, e).channels[c];
    assert !Enabled(compat13, maxsize, sys, Poll(e, c, if ch.input == [] then 0 else 1));
    assert !Enabled(compat13, maxsize, sys, Write(e, c, 0));
    assert !Enabled(compat13, maxsize, sys, Prepare(e, c));
  }

  /** A side at rest is open. */
  lemma SideIsOpen(k: nat, compat13: bool, c: Conn, e: End)
    requires Inv(k, compat13, c) && SideAt(c, e).life.Live? && Unmoved(compat13, SideAt(c, e).ch)
    requires SideAt(c, e).got == |SideAt(c, Peer(e)).sent| && SideAt(c, Peer(e)).got == |SideAt(c, e).sent|
    ensures SideAt(c, e).ch.ctype.Open?
  {
    hide DataOf, Closes, Confirmations, NoDataAfterClose, ConfirmationIsLast;
    var s, t := SideAt(c, e), SideAt(c, Peer(e));
    assert t.sent[..s.got] == t.sent && s.sent[..t.got] == s.sent;
  }

  /** What a side at rest has read, its peer has been sent, and what it has been sent it has written. */
  lemma SideIsDelivered(k: nat, compat13: bool, c: Conn, e: End)
    requires Inv(k, compat13, c)
    requires SideAt(c, e).got == |SideAt(c, Peer(e)).sent| && SideAt(c, Peer(e)).got == |SideAt(c, e).sent|
    requires SideAt(c, e).life.Live? ==> Unmoved(compat13, SideAt(c, e).ch)
    requires SideAt(c, Peer(e)).life.Live? ==> Unmoved(compat13, SideAt(c, Peer(e)).ch)
    requires compat13 ==> !SideAt(c, e).sock.ended
    ensures SideAt(c, e).sock.written == SideAt(c, Peer(e)).sock.read <==> !SideAt(c, e).sock.failed
  {
    hide DataOf, Closes, Confirmations, NoDataAfterClose, ConfirmationIsLast;
    var s, t := SideAt(c, e), SideAt(c, Peer(e));
    assert t.sent[..s.got] == t.sent && s.sent[..t.got] == s.sent;
  }

  lemma SidesAtRest(compat13: bool, maxsize: nat, conns: seq<Conn>, sys: System, k: nat, e: End)
    requires Describes(compat13, conns, sys) && k < |conns| && Still(compat13, maxsize, sys, k)
    ensures Inv(k, compat13, conns[k])
    ensures var s, t := SideAt(conns[k], e), SideAt(conns[k], Peer(e));
      && s.got == |t.sent| && t.got == |s.sent|
      && (s.life.Live? ==> Unmoved(compat13, s.ch)) && (t.life.Live? ==> Unmoved(compat13, t.ch))
  {
    hide Of, DataOf, Closes, Confirmations, Enabled, Inv, Unmoved;
    NothingInFlight(conns, sys, k, e);
    assert Inv(k, compat13, conns[k]);
    if SideAt(conns[k], e).life.Live? {
      StillSlot(compat13, maxsize, sys, k, e, SideAt(conns[k], e).slot);
    }
    if SideAt(conns[k], Peer(e)).life.Live? {
      StillSlot(compat13, maxsize, sys, k, Peer(e), SideAt(conns[k], Peer(e)).slot);
    }
  }

  /** A connection never gets stuck: when nothing of it is in flight and nothing but reads can be done, each slot that
      still serves it is open, and its socket can be read, whatever it gives, exactly as long as it has not ended and
      the peer has not sent OCLOSE. */
  lemma NeverStuck(compat13: bool, maxsize: nat, trace: seq<System>, acts: seq<Action>, n: nat, e: End, c: nat,
                   data: seq<byte>)
    requires IsRun(compat13, maxsize, trace, acts) && n < |trace| && c < |At(trace[n], e).channels| && maxsize > 0
    requires Occupied(At(trace[n], e).channels[c])
    requires Still(compat13, maxsize, trace[n], At(trace[n], e).channels[c].conn)
    ensures At(trace[n], e).got <= |At(trace[n], Peer(e)).wire|
    ensures var ch := At(trace[n], e).channels[c];
      && ch.ctype.Open?
      && (Enabled(compat13, maxsize, trace[n], Read(e, c, data)) <==>
          !SocketOf(At(trace[n], e).socks, ch).ended && Confirmations(HeardPackets(trace[n], e, ch.conn)) == 0)
  {
    hide Next, Describes, Still, HeardPackets, Confirmations;
    var sys := trace[n];
    var ch := At(sys, e).channels[c];
    var conns := RunDescribed(compat13, maxsize, trace, acts, n);
    SlotReuseIsSafe(compat13, maxsize, trace, acts, n, e);
    Occupant(compat13, conns, sys, e, c);
    SidesAtRest(compat13, maxsize, conns, sys, ch.conn, e);
    SideIsOpen(ch.conn, compat13, conns[ch.conn], e);
    DescribedSelection(compat13, maxsize, conns, sys, e, c);
  }

  /** And each side has then written all that its peer has read exactly when none of its writes failed; under 1.3, if
      its own input has not ended. */
  lemma StillMeansDelivered(compat13: bool, maxsize: nat, trace: seq<System>, acts: seq<Action>, n: nat, k: nat,
                            e: End)
    requires IsRun(compat13, maxsize, trace, acts) && n < |trace| && k < Connections(trace[n])
    requires Still(compat13, maxsize, trace[n], k)
    ensures |At(trace[n], Client).socks| == |At(trace[n], Server).socks| == Connections(trace[n])
    ensures var from, to := At(trace[n], Peer(e)).socks[k], At(trace[n], e).socks[k];
      (compat13 ==> !to.ended) ==> (to.written == from.read <==> !to.failed)
  {
    hide Next, Enabled, Describes, Still, Inv;
    var conns := RunDescribed(compat13, maxsize, trace, acts, n);
    SideInOrder(compat13, conns, trace[n], k, e);
    SidesAtRest(compat13, maxsize, conns, trace[n], k, e);
    if compat13 ==> !At(trace[n], e).socks[k].ended {
      SideIsDelivered(k, compat13, conns[k], e);
    }
  }

  /** A connection that has come to rest is delivered, in particular one that both sides have torn down. */
  lemma QuiescentMeansDelivered(compat13: bool, maxsize: nat, trace: seq<System>, acts: seq<Action>, n: nat, k: nat,
                                e: End)
    requires IsRun(compat13, maxsize, trace, acts) && n < |trace| && k < Connections(trace[n])
    requires Quiescent(compat13, maxsize, trace[n], k)
    ensures |At(trace[n], Client).socks| == |At(trace[n], Server).socks| == Connections(trace[n])
    ensures var from, to := At(trace[n], Peer(e)).socks[k], At(trace[n], e).socks[k];
      (compat13 ==> !to.ended) ==> (to.written == from.read <==> !to.failed)
  {
    hide Enabled, HasHeard, IsRun;
    StillMeansDelivered(compat13, maxsize, trace, acts, n, k, e);
  }
}
