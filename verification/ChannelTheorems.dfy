/** The theorems about whole runs of the channel protocol. */
module ChannelTheorems {
  import opened Channels
  import opened ChannelRuns
  import opened Connection
  import opened ChannelSafety

  /** Every state of a run is described by connections in order. */
  lemma {:induction false} RunDescribed(compat13: bool, maxsize: nat, trace: seq<System>, acts: seq<Action>, n: nat)
    returns (conns: seq<Conn>)
    requires IsRun(compat13, maxsize, trace, acts) && n < |trace|
    ensures Describes(compat13, conns, trace[n])
  {
    hide Next, Evolved;
    if n == 0 {
      conns := [];
    } else {
      var before := RunDescribed(compat13, maxsize, trace, acts, n - 1);
      Step(compat13, maxsize, before, trace[n-1], acts[n-1]);
      conns := Evolved(compat13, maxsize, before, trace[n-1], acts[n-1]);
    }
  }

  // ---------------------------------------------------------------- safety

  /** Slot reuse is safe, under both tear-down protocols: in every run, no operation ever reports a protocol error, an
      internal error, a disconnect or a cannot-happen, and every packet about to be processed names a slot occupied by
      the connection it was sent for, in a state that expects it. */
  lemma SlotReuseIsSafe(compat13: bool, maxsize: nat, trace: seq<System>, acts: seq<Action>, n: nat, e: End)
    requires IsRun(compat13, maxsize, trace, acts) && n < |trace|
    ensures trace[n].fault.NoFault?
    ensures Addressed(compat13, trace[n], e)
  {
    var conns := RunDescribed(compat13, maxsize, trace, acts, n);
    if Pending(trace[n], e) && !At(trace[n], Peer(e)).wire[At(trace[n], e).got].PortOpen? {
      ArrivalIsExpected(compat13, conns, trace[n], e);
    }
  }

  /** What an ordered connection says about one side's packets and sockets. */
  lemma SideInOrder(compat13: bool, conns: seq<Conn>, sys: System, k: nat, e: End)
    requires Describes(compat13, conns, sys) && k < Connections(sys)
    ensures k < |conns| && |At(sys, e).socks| == |At(sys, Peer(e)).socks| == |conns|
    ensures var s, t := SideAt(conns[k], e), SideAt(conns[k], Peer(e));
      && s.sent == Of(At(sys, e).wire, k) && s.sock == At(sys, e).socks[k] && t.sock == At(sys, Peer(e)).socks[k]
      && InOrder(k, compat13, SideAt(conns[k], conns[k].opener), SideAt(conns[k], Peer(conns[k].opener)))
  {
    hide Of, Closes, Confirmations, DataOf;
    assert Inv(k, compat13, conns[k]);
  }

  /** Each side of each connection sends at most one close (IEOF), at most one confirmation (OCLOSE), and no data after
      its close. */
  lemma TeardownIsOrderly(compat13: bool, maxsize: nat, trace: seq<System>, acts: seq<Action>, n: nat, k: nat, e: End)
    requires IsRun(compat13, maxsize, trace, acts) && n < |trace| && k < Connections(trace[n])
    ensures var sent := Of(At(trace[n], e).wire, k);
      Closes(sent) <= 1 && Confirmations(sent) <= 1 && NoDataAfterClose(sent)
  {
    hide DataOf, Of, Half, NoDataAfterClose, Closes, Confirmations;
    var conns := RunDescribed(compat13, maxsize, trace, acts, n);
    SideInOrder(compat13, conns, trace[n], k, e);
    var s, t := SideAt(conns[k], e), SideAt(conns[k], Peer(e));
    if s.life.Absent? || t.life.Absent? {
      ShortHistory(k, compat13, conns[k], e);
    } else {
      HalfIsOrderly(compat13, s, t);
    }
  }

  lemma HalfIsOrderly(compat13: bool, s: Side, t: Side)
    requires s.got <= |t.sent| && !s.life.Absent? && Half(compat13, s, t)
    ensures Closes(s.sent) <= 1 && Confirmations(s.sent) <= 1 && NoDataAfterClose(s.sent)
  {
    hide DataOf, Closes, Confirmations, NoDataAfterClose;
  }

  lemma ShortHistory(k: nat, compat13: bool, c: Conn, e: End)
    requires Inv(k, compat13, c) && (SideAt(c, e).life.Absent? || SideAt(c, Peer(e)).life.Absent?)
    ensures var sent := SideAt(c, e).sent; Closes(sent) == Confirmations(sent) == 0 && NoDataAfterClose(sent)
  {
    hide Half, DataOf;
    var sent := SideAt(c, e).sent;
    if sent != [] {
      assert sent == [] + [sent[0]];
      Appended([], sent[0]);
    }
  }

  // ---------------------------------------------------------------- end-to-end data

  lemma {:induction false} NoDataRemains(s: seq<Packet>, n: nat)
    requires n <= |s| && NoDataAfterClose(s) && Closes(s[..n]) > 0
    ensures DataOf(s) == DataOf(s[..n])
    decreases |s| - n
  {
    if n == |s| {
      assert s[..n] == s;
    } else {
      var i := HasClose(s[..n]);
      TakeOneMore(s, n);
      NoDataRemains(s, n + 1);
    }
  }

  lemma HalvesGivePrefix(compat13: bool, s: Side, t: Side)
    requires s.got <= |t.sent| && t.got <= |s.sent| && Half(compat13, s, t) && Half(compat13, t, s)
    ensures s.sock.written <= t.sock.read
  {
    PrefixContains(t.sent, s.got);
    assert s.sock.written <= s.sock.written + s.ch.output;
  }

  /** Protocol 1.5: everything arrives at a side that has sent its OCLOSE, unless a write failed. */
  lemma HalvesGiveAll(s: Side, t: Side)
    requires s.got <= |t.sent| && t.got <= |s.sent| && Half(false, s, t) && Half(false, t, s)
    requires Confirmations(s.sent) == 1
    ensures s.sock.written == t.sock.read <==> !s.sock.failed
  {
    PrefixContains(t.sent, s.got);
    if !s.sock.failed {
      NoDataRemains(t.sent, s.got);
      assert s.sock.written + [] == s.sock.written;
    }
  }

  /** Protocol 1.3: everything arrives at a side that has processed the peer's close and has nothing left to write, if
      its socket never found the end of its own input, unless a write failed. */
  lemma HalvesGiveAll13(s: Side, t: Side)
    requires s.got <= |t.sent| && t.got <= |s.sent| && Half(true, s, t) && Half(true, t, s)
    requires Closes(t.sent[..s.got]) == 1 && s.ch.output == [] && !s.sock.ended
    ensures s.sock.written == t.sock.read <==> !s.sock.failed
  {
    PrefixContains(t.sent, s.got);
    NoDataRemains(t.sent, s.got);
    assert s.sock.written + [] == s.sock.written;
  }

  lemma InOrderData(k: nat, compat13: bool, c: Conn, e: End)
    requires Inv(k, compat13, c)
    ensures var s, t := SideAt(c, e), SideAt(c, Peer(e));
      && s.sock.written <= t.sock.read
      && (!compat13 && Confirmations(s.sent) == 1 ==> (s.sock.written == t.sock.read <==> !s.sock.failed))
  {
    hide DataOf;
    var s, t := SideAt(c, e), SideAt(c, Peer(e));
    if s.life.Absent? || t.life.Absent? {
      ShortHistory(k, compat13, c, e);
    } else {
      HalvesGivePrefix(compat13, s, t);
      if !compat13 && Confirmations(s.sent) == 1 {
        HalvesGiveAll(s, t);
      }
    }
  }

  lemma InOrderData13(k: nat, c: Conn, e: End)
    requires Inv(k, true, c) && SideAt(c, e).got <= |SideAt(c, Peer(e)).sent|
    requires Closes(SideAt(c, Peer(e)).sent[..SideAt(c, e).got]) == 1
    requires SideAt(c, e).life.Live? ==> SideAt(c, e).ch.output == []
    ensures var s, t := SideAt(c, e), SideAt(c, Peer(e));
      !s.sock.ended ==> (s.sock.written == t.sock.read <==> !s.sock.failed)
  {
    hide DataOf;
    var s, t := SideAt(c, e), SideAt(c, Peer(e));
    if s.life.Absent? || t.life.Absent? {
      ShortHistory(k, true, c, Peer(e));
      PrefixContains(t.sent, s.got);
    } else if !s.sock.ended {
      HalvesGiveAll13(s, t);
    }
  }

  /** In every reachable state the bytes written to one socket are a prefix of the bytes read from the peer's; under
      protocol 1.5, once the writer has sent its OCLOSE, they are all of them exactly when no write failed. */
  lemma DataArrives(compat13: bool, maxsize: nat, trace: seq<System>, acts: seq<Action>, n: nat, k: nat, e: End)
    requires IsRun(compat13, maxsize, trace, acts) && n < |trace| && k < Connections(trace[n])
    ensures |At(trace[n], Client).socks| == |At(trace[n], Server).socks| == Connections(trace[n])
    ensures var from, to := At(trace[n], Peer(e)).socks[k], At(trace[n], e).socks[k];
      && to.written <= from.read
      && (!compat13 && Confirmations(Of(At(trace[n], e).wire, k)) == 1 ==> (to.written == from.read <==> !to.failed))
  {
    var conns := RunDescribed(compat13, maxsize, trace, acts, n);
    SideInOrder(compat13, conns, trace[n], k, e);
    InOrderData(k, compat13, conns[k], e);
  }

  /** The packets of connection `k` that endpoint `e` has processed. */
  function HeardPackets(sys: System, e: End, k: nat): seq<Packet>
    requires At(sys, e).got <= |At(sys, Peer(e)).wire|
  {
    Of(At(sys, Peer(e)).wire[..At(sys, e).got], k)
  }

  /** Endpoint `e` has nothing left to write for connection `k`: its slot is drained, or freed. */
  predicate NothingToWrite(channels: seq<Channel>, k: nat) {
    forall c :: 0 <= c < |channels| && Occupied(channels[c]) && channels[c].conn == k ==> channels[c].output == []
  }

  lemma ProcessedPackets(compat13: bool, conns: seq<Conn>, sys: System, k: nat, e: End)
    requires Describes(compat13, conns, sys) && k < Connections(sys)
    ensures k < |conns| && At(sys, e).got <= |At(sys, Peer(e)).wire|
    ensures var s, t := SideAt(conns[k], e), SideAt(conns[k], Peer(e));
      s.got <= |t.sent| && HeardPackets(sys, e, k) == t.sent[..s.got]
    ensures var s := SideAt(conns[k], e);
      NothingToWrite(At(sys, e).channels, k) && s.life.Live? && !s.ch.ctype.Opening? ==> s.ch.output == []
  {
    hide Of, Closes, Confirmations, DataOf;
    OfPrefix(At(sys, Peer(e)).wire, At(sys, e).got, k);
  }

  /** Under protocol 1.3, once a side has processed its peer's CLOSE and has nothing left to write, and its own input
      never ended, all the bytes have arrived exactly when no write failed. Module ChannelLoss says what happens to a
      side whose own input ended. */
  lemma DataArrives13(maxsize: nat, trace: seq<System>, acts: seq<Action>, n: nat, k: nat, e: End)
    requires IsRun(true, maxsize, trace, acts) && n < |trace| && k < Connections(trace[n])
    ensures |At(trace[n], Client).socks| == |At(trace[n], Server).socks| == Connections(trace[n])
    ensures At(trace[n], e).got <= |At(trace[n], Peer(e)).wire|
    ensures var from, to := At(trace[n], Peer(e)).socks[k], At(trace[n], e).socks[k];
      Closes(HeardPackets(trace[n], e, k)) == 1 && NothingToWrite(At(trace[n], e).channels, k) && !to.ended ==>
      (to.written == from.read <==> !to.failed)
  {
    hide Of, Closes, HeardPackets, NothingToWrite;
    var conns := RunDescribed(true, maxsize, trace, acts, n);
    SideInOrder(true, conns, trace[n], k, e);
    ProcessedPackets(true, conns, trace[n], k, e);
    if Closes(HeardPackets(trace[n], e, k)) == 1 && NothingToWrite(At(trace[n], e).channels, k) {
      assert Inv(k, true, conns[k]);
      InOrderData13(k, conns[k], e);
    }
  }

  /** A slot whose output half is closed belongs to a side that has sent its OCLOSE. */
  lemma OutputClosedMeansOclose(maxsize: nat, trace: seq<System>, acts: seq<Action>, n: nat, e: End, c: nat)
    requires IsRun(false, maxsize, trace, acts) && n < |trace| && c < |At(trace[n], e).channels|
    requires Occupied(At(trace[n], e).channels[c]) && At(trace[n], e).channels[c].ostate.OutputClosed?
    ensures Confirmations(Of(At(trace[n], e).wire, At(trace[n], e).channels[c].conn)) == 1
  {
    hide Of, DataOf;
    var conns := RunDescribed(false, maxsize, trace, acts, n);
    Occupant(false, conns, trace[n], e, c);
    SideInOrder(false, conns, trace[n], At(trace[n], e).channels[c].conn, e);
  }
}
