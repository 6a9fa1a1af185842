/** Every run of two endpoints is, connection by connection, a run of isolated connections: the shared slot tables and
    packet streams never mix two of them up. From this follow the safety theorems about whole runs. */
module ChannelSafety {
  import opened Channels
  import opened ChannelRuns
  import opened Connection

  predicate Occupied(ch: Channel) {
    !ch.ctype.Free? && !ch.ctype.PortListener?
  }

  // ---------------------------------------------------------------- the packets of one connection in a stream

  lemma {:induction false} OfAppend(s: seq<Packet>, out: seq<Packet>, k: nat, j: nat)
    requires Tagged(out, k)
    ensures Of(s + out, j) == if j == k then Of(s, j) + out else Of(s, j)
    decreases |out|
  {
    if out == [] {
      assert s + out == s;
    } else {
      var init := out[..|out|-1];
      assert (s + out)[..|s + out|-1] == s + init;
      assert out == init + [out[|out|-1]];
      OfAppend(s, init, k, j);
    }
  }

  lemma OfTakeOneMore(s: seq<Packet>, n: nat, j: nat)
    requires n < |s|
    ensures Of(s[..n+1], j) == if s[n].conn == j then Of(s[..n], j) + [s[n]] else Of(s[..n], j)
  {
    assert s[..n+1][..n] == s[..n];
  }

  lemma {:induction false} OfPrefix(s: seq<Packet>, n: nat, j: nat)
    requires n <= |s|
    ensures Of(s[..n], j) <= Of(s, j)
    decreases |s| - n
  {
    if n == |s| {
      assert s[..n] == s;
    } else {
      OfTakeOneMore(s, n, j);
      OfPrefix(s, n + 1, j);
    }
  }

  // ---------------------------------------------------------------- tables and streams agree with the connections

  ghost predicate SlotsAgree(channels: seq<Channel>, conns: seq<Conn>, e: End) {
    && (forall i :: 0 <= i < |channels| && Occupied(channels[i]) ==>
          && channels[i].conn < |conns|
          && var s := SideAt(conns[channels[i].conn], e);
          && s.life.Live? && s.slot == i && s.ch == channels[i])
    && (forall k :: 0 <= k < |conns| && SideAt(conns[k], e).life.Live? ==>
          && var s := SideAt(conns[k], e);
          && s.slot < |channels| && channels[s.slot] == s.ch && Occupied(s.ch) && s.ch.conn == k)
  }

  /** `wire` is all that endpoint `e` sent, and `got` how much of `peerWire` it has processed. */
  ghost predicate StreamsAgree(wire: seq<Packet>, got: nat, peerWire: seq<Packet>, conns: seq<Conn>, e: End) {
    && got <= |peerWire|
    && (forall i :: 0 <= i < |wire| ==> wire[i].conn < |conns|)
    && (forall k :: 0 <= k < |conns| ==> Of(wire, k) == SideAt(conns[k], e).sent)
    && (forall k :: 0 <= k < |conns| ==> |Of(peerWire[..got], k)| == SideAt(conns[k], e).got)
  }

  ghost predicate SocketsAgree(socks: seq<Socket>, conns: seq<Conn>, e: End) {
    && |socks| == |conns|
    && forall k :: 0 <= k < |conns| ==> socks[k] == SideAt(conns[k], e).sock
  }

  ghost predicate HostAgrees(h: Host, peer: Host, conns: seq<Conn>, e: End) {
    && SlotsAgree(h.channels, conns, e)
    && h.got <= |peer.wire|
    && StreamsAgree(h.wire, h.got, peer.wire, conns, e)
    && SocketsAgree(h.socks, conns, e)
  }

  ghost predicate AllInOrder(compat13: bool, conns: seq<Conn>) {
    forall k {:trigger Inv(k, compat13, conns[k])} :: 0 <= k < |conns| ==> Inv(k, compat13, conns[k])
  }

  lemma OneChanged(compat13: bool, conns: seq<Conn>, k: nat, c: Conn)
    requires AllInOrder(compat13, conns) && k < |conns| && Inv(k, compat13, c)
    ensures AllInOrder(compat13, conns[k := c])
  {
    var conns' := conns[k := c];
    forall j | 0 <= j < |conns'|
      ensures Inv(j, compat13, conns'[j])
    {
      assert j != k ==> Inv(j, compat13, conns[j]);
    }
  }

  lemma OneAdded(compat13: bool, conns: seq<Conn>, c: Conn)
    requires AllInOrder(compat13, conns) && Inv(|conns|, compat13, c)
    ensures AllInOrder(compat13, conns + [c])
  {
    var conns' := conns + [c];
    forall j | 0 <= j < |conns'|
      ensures Inv(j, compat13, conns'[j])
    {
      assert j < |conns| ==> Inv(j, compat13, conns[j]);
    }
  }

  /** `conns` describes `sys`, and every connection is in order. */
  ghost predicate Describes(compat13: bool, conns: seq<Conn>, sys: System) {
    && sys.fault.NoFault?
    && AllInOrder(compat13, conns)
    && HostAgrees(sys.client, sys.server, conns, Client)
    && HostAgrees(sys.server, sys.client, conns, Server)
  }

  /** Endpoint `e` after side `e` of connection `k` acted on its slot. */
  function Updated(h: Host, slot: nat, k: nat, eff: Effect, pop: nat, sock: Socket): Host
    requires slot < |h.channels| && k < |h.socks|
  {
    Host(h.channels[slot := eff.ch], h.wire + eff.out, h.got + pop, h.socks[k := sock])
  }

  lemma SlotsStillAgree(channels: seq<Channel>, conns: seq<Conn>, e: End, k: nat, eff: Effect, pop: nat, sock: Socket)
    requires SlotsAgree(channels, conns, e) && k < |conns| && SideAt(conns[k], e).life.Live?
    requires eff.ch.conn == k && !eff.ch.ctype.PortListener?
    ensures SlotsAgree(channels[SideAt(conns[k], e).slot := eff.ch], conns[k := Acted(conns[k], e, eff, pop, sock)], e)
  {
    hide Of, StreamsAgree;
  }

  lemma OtherEndUnmoved(h: Host, peer: Host, conns: seq<Conn>, e: End, k: nat, out: seq<Packet>, c: Conn)
    requires StreamsAgree(peer.wire, peer.got, h.wire, conns, Peer(e)) && k < |conns|
    requires SideAt(c, Peer(e)) == SideAt(conns[k], Peer(e))
    ensures StreamsAgree(peer.wire, peer.got, h.wire + out, conns[k := c], Peer(e))
  {
    hide Of;
    assert (h.wire + out)[..peer.got] == h.wire[..peer.got];
  }

  lemma StreamsStillAgree(h: Host, peer: Host, conns: seq<Conn>, e: End, k: nat, eff: Effect, pop: nat, sock: Socket)
    requires StreamsAgree(h.wire, h.got, peer.wire, conns, e) && k < |conns| && Tagged(eff.out, k)
    requires pop <= 1 && h.got + pop <= |peer.wire|
    requires pop == 1 ==> peer.wire[h.got].conn == k
    ensures StreamsAgree(h.wire + eff.out, h.got + pop, peer.wire,
                         conns[k := Acted(conns[k], e, eff, pop, sock)], e)
  {
    hide Of;
    var conns' := conns[k := Acted(conns[k], e, eff, pop, sock)];
    forall j | 0 <= j < |conns|
      ensures Of(h.wire + eff.out, j) == SideAt(conns'[j], e).sent
      ensures |Of(peer.wire[..h.got+pop], j)| == SideAt(conns'[j], e).got
    {
      OfAppend(h.wire, eff.out, k, j);
      if pop == 1 {
        OfTakeOneMore(peer.wire, h.got, j);
      }
    }
  }

  lemma HostStillAgrees(h: Host, peer: Host, conns: seq<Conn>, e: End, k: nat, eff: Effect, pop: nat, sock: Socket)
    requires HostAgrees(h, peer, conns, e) && k < |conns| && SideAt(conns[k], e).life.Live?
    requires eff.ch.conn == k && !eff.ch.ctype.PortListener? && Tagged(eff.out, k)
    requires pop <= 1 && h.got + pop <= |peer.wire|
    requires pop == 1 ==> peer.wire[h.got].conn == k
    ensures HostAgrees(Updated(h, SideAt(conns[k], e).slot, k, eff, pop, sock), peer,
                       conns[k := Acted(conns[k], e, eff, pop, sock)], e)
  {
    hide Of, SlotsAgree, StreamsAgree;
    SlotsStillAgree(h.channels, conns, e, k, eff, pop, sock);
    StreamsStillAgree(h, peer, conns, e, k, eff, pop, sock);
  }

  lemma PeerStillAgrees(h: Host, peer: Host, conns: seq<Conn>, e: End, k: nat, c: Conn, h': Host, out: seq<Packet>)
    requires HostAgrees(peer, h, conns, Peer(e)) && k < |conns|
    requires SideAt(c, Peer(e)) == SideAt(conns[k], Peer(e)) && h'.wire == h.wire + out
    ensures HostAgrees(peer, h', conns[k := c], Peer(e))
  {
    hide Of, StreamsAgree;
    OtherEndUnmoved(h, peer, conns, e, k, out, c);
  }

  /** A step of side `e` of connection `k` is a step of that connection alone. */
  lemma StepOfOne(compat13: bool, conns: seq<Conn>, sys: System, e: End, k: nat, eff: Effect, pop: nat, sock: Socket)
    requires Describes(compat13, conns, sys) && k < |conns| && SideAt(conns[k], e).life.Live?
    requires StepOk(k, compat13, conns[k], e, eff, pop, sock)
    requires pop <= 1 && At(sys, e).got + pop <= |At(sys, Peer(e)).wire|
    requires pop == 1 ==> At(sys, Peer(e)).wire[At(sys, e).got].conn == k
    ensures Describes(compat13, conns[k := Acted(conns[k], e, eff, pop, sock)],
                      With(sys, e, Updated(At(sys, e), SideAt(conns[k], e).slot, k, eff, pop, sock)))
  {
    hide Inv, StreamsAgree, AllInOrder;
    var h, peer := At(sys, e), At(sys, Peer(e));
    OneChanged(compat13, conns, k, Acted(conns[k], e, eff, pop, sock));
    HostStillAgrees(h, peer, conns, e, k, eff, pop, sock);
    PeerStillAgrees(h, peer, conns, e, k, Acted(conns[k], e, eff, pop, sock),
                    Updated(h, SideAt(conns[k], e).slot, k, eff, pop, sock), eff.out);
  }

  // ---------------------------------------------------------------- taking a slot

  /** Taking a free slot disturbs no connection that holds one. */
  lemma AllocationAgrees(channels: seq<Channel>, conns: seq<Conn>, conns': seq<Conn>, e: End, k: nat, ch: Channel)
    requires SlotsAgree(channels, conns, e) && |conns| <= |conns'|
    requires forall j :: 0 <= j < |conns'| && j != k ==>
      if j < |conns| then SideAt(conns'[j], e) == SideAt(conns[j], e) else !SideAt(conns'[j], e).life.Live?
    requires k < |conns| ==> !SideAt(conns[k], e).life.Live?
    requires Occupied(ch) ==>
      && ch.conn == k && k < |conns'|
      && var s := SideAt(conns'[k], e); s.life.Live? && s.slot == AllocatedSlot(channels) && s.ch == ch
    requires !Occupied(ch) && k < |conns'| ==> !SideAt(conns'[k], e).life.Live?
    ensures SlotsAgree(Allocated(channels, ch), conns', e)
  {
    hide FirstFree, AllocatedSlot;
    var channels' := Allocated(channels, ch);
    var n := AllocatedSlot(channels);
    assert forall i :: 0 <= i < |channels'| && i != n && Occupied(channels'[i]) ==>
        i < |channels| && channels[i] == channels'[i];
    forall j | 0 <= j < |conns'| && SideAt(conns'[j], e).life.Live?
      ensures var s := SideAt(conns'[j], e);
        s.slot < |channels'| && channels'[s.slot] == s.ch && Occupied(s.ch) && s.ch.conn == j
    {
      if j != k {
        assert Occupied(channels[SideAt(conns[j], e).slot]);
      }
    }
  }

  lemma {:induction false} NoneOf(s: seq<Packet>, k: nat)
    requires forall i :: 0 <= i < |s| ==> s[i].conn < k
    ensures Of(s, k) == []
    decreases |s|
  {
    if s != [] {
      NoneOf(s[..|s|-1], k);
    }
  }

  lemma ListenStep(compat13: bool, conns: seq<Conn>, sys: System, e: End)
    requires Describes(compat13, conns, sys)
    ensures Describes(compat13, conns, With(sys, e, Listener(At(sys, e))))
  {
    hide Allocated, AllInOrder, StreamsAgree;
    AllocationAgrees(At(sys, e).channels, conns, conns, e, |conns|, NewChannel(PortListener, 0));
  }

  /** A new connection adds nothing to the streams but its own packets. */
  lemma NewStreams(h: Host, peer: Host, conns: seq<Conn>, e: End, out: seq<Packet>, peerOut: seq<Packet>, c: Conn)
    requires StreamsAgree(h.wire, h.got, peer.wire, conns, e)
    requires StreamsAgree(peer.wire, peer.got, h.wire, conns, Peer(e))
    requires Tagged(out, |conns|) && SideAt(c, e).sent == out && SideAt(c, e).got == 0
    ensures StreamsAgree(h.wire + out, h.got, peer.wire + peerOut, conns + [c], e)
  {
    var k := |conns|;
    NoneOf(h.wire, k);
    NoneOf(peer.wire[..h.got], k);
    assert (peer.wire + peerOut)[..h.got] == peer.wire[..h.got];
    forall j | 0 <= j <= k
      ensures Of(h.wire + out, j) == SideAt((conns + [c])[j], e).sent
    {
      OfAppend(h.wire, out, k, j);
    }
  }

  /** The requesting endpoint after its request, and the other one. */
  function Requester(h: Host, k: nat): Host {
    Host(Allocated(h.channels, NewChannel(Opening, k)), h.wire + [PortOpen(AllocatedSlot(h.channels), k)], h.got,
         h.socks + [QuietSocket])
  }

  function Bystander(h: Host): Host {
    h.(socks := h.socks + [QuietSocket])
  }

  lemma RequesterAgrees(h: Host, peer: Host, conns: seq<Conn>, e: End)
    requires HostAgrees(h, peer, conns, e) && HostAgrees(peer, h, conns, Peer(e))
    ensures HostAgrees(Requester(h, |conns|), Bystander(peer),
                       conns + [Requested(|conns|, e, AllocatedSlot(h.channels))], e)
  {
    hide Of, Allocated, AllocatedSlot;
    var k, n := |conns|, AllocatedSlot(h.channels);
    var c := Requested(k, e, n);
    NewStreams(h, peer, conns, e, [PortOpen(n, k)], [], c);
    assert peer.wire + [] == peer.wire;
    AllocationAgrees(h.channels, conns, conns + [c], e, k, NewChannel(Opening, k));
  }

  lemma BystanderAgrees(h: Host, peer: Host, conns: seq<Conn>, e: End)
    requires HostAgrees(h, peer, conns, e) && HostAgrees(peer, h, conns, Peer(e))
    ensures HostAgrees(Bystander(peer), Requester(h, |conns|),
                       conns + [Requested(|conns|, e, AllocatedSlot(h.channels))], Peer(e))
  {
    hide Of, Allocated, AllocatedSlot;
    var k, n := |conns|, AllocatedSlot(h.channels);
    var c := Requested(k, e, n);
    NewStreams(peer, h, conns, Peer(e), [], [PortOpen(n, k)], c);
    assert peer.wire + [] == peer.wire;
  }

  lemma RequestStep(compat13: bool, conns: seq<Conn>, sys: System, e: End)
    requires Describes(compat13, conns, sys)
    ensures Describes(compat13, conns + [Requested(|conns|, e, AllocatedSlot(At(sys, e).channels))],
                      Next(compat13, 0, sys, OpenRequest(e)))
  {
    hide StreamsAgree, SlotsAgree, AllInOrder, Allocated;
    var h, peer := At(sys, e), At(sys, Peer(e));
    RequesterAgrees(h, peer, conns, e);
    BystanderAgrees(h, peer, conns, e);
    OneAdded(compat13, conns, Requested(|conns|, e, AllocatedSlot(h.channels)));
    assert Next(compat13, 0, sys, OpenRequest(e))
      == With(With(sys, e, Requester(h, |conns|)), Peer(e), Bystander(peer));
  }

  // ---------------------------------------------------------------- answering a request

  lemma AnswerStreams(h: Host, peer: Host, conns: seq<Conn>, e: End, k: nat, c: Conn)
    requires StreamsAgree(h.wire, h.got, peer.wire, conns, e) && k < |conns| && h.got < |peer.wire|
    requires peer.wire[h.got].conn == k
    requires SideAt(conns[k], e).sent == [] && SideAt(conns[k], e).got == 0
    requires Tagged(SideAt(c, e).sent, k) && SideAt(c, e).got == 1
    ensures StreamsAgree(h.wire + SideAt(c, e).sent, h.got + 1, peer.wire, conns[k := c], e)
  {
    hide Of;
    var conns' := conns[k := c];
    forall j | 0 <= j < |conns|
      ensures Of(h.wire + SideAt(c, e).sent, j) == SideAt(conns'[j], e).sent
      ensures |Of(peer.wire[..h.got+1], j)| == SideAt(conns'[j], e).got
    {
      OfAppend(h.wire, SideAt(c, e).sent, k, j);
      OfTakeOneMore(peer.wire, h.got, j);
    }
  }

  lemma AcceptingHostAgrees(h: Host, peer: Host, conns: seq<Conn>, e: End, k: nat, c: Conn)
    requires HostAgrees(h, peer, conns, e) && k < |conns|
    requires h.got < |peer.wire| && peer.wire[h.got] == PortOpen(SideAt(conns[k], Peer(e)).slot, k)
    requires SideAt(conns[k], e).life.Absent? && SideAt(conns[k], e).got == 0 && SideAt(conns[k], e).sent == []
    requires SideAt(conns[k], e).sock == QuietSocket
    requires c == Answered(conns[k], e, k, AllocatedSlot(h.channels), true)
    ensures HostAgrees(AcceptOpen(h.(got := h.got + 1), peer.wire[h.got], true), peer, conns[k := c], e)
  {
    hide Of, Allocated, AllocatedSlot, SlotsAgree;
    AnswerStreams(h, peer, conns, e, k, c);
    AllocationAgrees(h.channels, conns, conns[k := c], e, k, SideAt(c, e).ch);
  }

  lemma RefusingHostAgrees(h: Host, peer: Host, conns: seq<Conn>, e: End, k: nat, c: Conn)
    requires HostAgrees(h, peer, conns, e) && k < |conns|
    requires h.got < |peer.wire| && peer.wire[h.got] == PortOpen(SideAt(conns[k], Peer(e)).slot, k)
    requires SideAt(conns[k], e).life.Absent? && SideAt(conns[k], e).got == 0 && SideAt(conns[k], e).sent == []
    requires SideAt(conns[k], e).sock == QuietSocket
    requires c == Answered(conns[k], e, k, AllocatedSlot(h.channels), false)
    ensures HostAgrees(AcceptOpen(h.(got := h.got + 1), peer.wire[h.got], false), peer, conns[k := c], e)
  {
    hide Of;
    AnswerStreams(h, peer, conns, e, k, c);
    assert SlotsAgree(h.channels, conns[k := c], e);
  }

  lemma AnswerInOrder(compat13: bool, conns: seq<Conn>, e: End, k: nat, slot: nat, connected: bool)
    requires AllInOrder(compat13, conns) && k < |conns|
    requires e != conns[k].opener && SideAt(conns[k], e).life.Absent? && SideAt(conns[k], e).got == 0
    ensures SideAt(conns[k], e).sent == [] && SideAt(conns[k], e).sock == QuietSocket
    ensures AllInOrder(compat13, conns[k := Answered(conns[k], e, k, slot, connected)])
  {
    assert Inv(k, compat13, conns[k]);
    AnsweredIsOk(k, compat13, conns[k], e, slot, connected);
    OneChanged(compat13, conns, k, Answered(conns[k], e, k, slot, connected));
  }

  lemma AnswerHosts(conns: seq<Conn>, h: Host, peer: Host, e: End, k: nat, connected: bool)
    requires HostAgrees(h, peer, conns, e) && HostAgrees(peer, h, conns, Peer(e)) && k < |conns|
    requires h.got < |peer.wire| && peer.wire[h.got] == PortOpen(SideAt(conns[k], Peer(e)).slot, k)
    requires SideAt(conns[k], e).life.Absent? && SideAt(conns[k], e).got == 0 && SideAt(conns[k], e).sent == []
    requires SideAt(conns[k], e).sock == QuietSocket
    ensures var h' := AcceptOpen(h.(got := h.got + 1), peer.wire[h.got], connected);
      var c := Answered(conns[k], e, k, AllocatedSlot(h.channels), connected);
      HostAgrees(h', peer, conns[k := c], e) && HostAgrees(peer, h', conns[k := c], Peer(e))
  {
    hide HostAgrees, Allocated, AllocatedSlot;
    var c := Answered(conns[k], e, k, AllocatedSlot(h.channels), connected);
    if connected {
      AcceptingHostAgrees(h, peer, conns, e, k, c);
    } else {
      RefusingHostAgrees(h, peer, conns, e, k, c);
    }
    PeerStillAgrees(h, peer, conns, e, k, c, AcceptOpen(h.(got := h.got + 1), peer.wire[h.got], connected),
                    SideAt(c, e).sent);
  }

  lemma AnswerStep(compat13: bool, conns: seq<Conn>, sys: System, e: End, k: nat, connected: bool)
    requires Describes(compat13, conns, sys) && k < |conns| && Pending(sys, e)
    requires At(sys, Peer(e)).wire[At(sys, e).got] == PortOpen(SideAt(conns[k], Peer(e)).slot, k)
    requires e != conns[k].opener && SideAt(conns[k], e).life.Absent? && SideAt(conns[k], e).got == 0
    ensures Describes(compat13, conns[k := Answered(conns[k], e, k, AllocatedSlot(At(sys, e).channels), connected)],
                      With(sys, e, AcceptOpen(At(sys, e).(got := At(sys, e).got + 1),
                                              At(sys, Peer(e)).wire[At(sys, e).got], connected)))
  {
    hide HostAgrees, AllInOrder, Allocated, AllocatedSlot, Answered, AcceptOpen;
    AnswerInOrder(compat13, conns, e, k, AllocatedSlot(At(sys, e).channels), connected);
    AnswerHosts(conns, At(sys, e), At(sys, Peer(e)), e, k, connected);
  }

  // ---------------------------------------------------------------- every step

  /** The next packet for `e` is the next packet of its own connection. */
  lemma HeadOfConnection(h: Host, peer: Host, conns: seq<Conn>, e: End)
    requires StreamsAgree(h.wire, h.got, peer.wire, conns, e)
    requires StreamsAgree(peer.wire, peer.got, h.wire, conns, Peer(e)) && h.got < |peer.wire|
    ensures var p := peer.wire[h.got];
      && p.conn < |conns|
      && var s, t := SideAt(conns[p.conn], e), SideAt(conns[p.conn], Peer(e));
      s.got < |t.sent| && t.sent[s.got] == p
  {
    hide Of;
    var p := peer.wire[h.got];
    var k := p.conn;
    var before, upto := Of(peer.wire[..h.got], k), Of(peer.wire[..h.got+1], k);
    OfTakeOneMore(peer.wire, h.got, k);
    OfPrefix(peer.wire, h.got + 1, k);
    assert upto == before + [p];
    assert upto[|before|] == p;
  }

  lemma LocalStep(compat13: bool, conns: seq<Conn>, sys: System, e: End, c: nat, eff: Effect, sock: Socket)
    requires Describes(compat13, conns, sys) && c < |At(sys, e).channels| && Occupied(At(sys, e).channels[c])
    requires var k := At(sys, e).channels[c].conn; k < |conns| && StepOk(k, compat13, conns[k], e, eff, 0, sock)
    ensures var k := At(sys, e).channels[c].conn;
      Describes(compat13, conns[k := Acted(conns[k], e, eff, 0, sock)], Affect(sys, e, c, eff, sock))
  {
    hide Inv, StreamsAgree, AllInOrder;
    StepOfOne(compat13, conns, sys, e, At(sys, e).channels[c].conn, eff, 0, sock);
  }

  /** The pending packet of `e` names a slot whose occupant is the connection the packet was sent for, in a state that
      expects it. */
  predicate Addressed(compat13: bool, sys: System, e: End) {
    Pending(sys, e) ==>
      var channels, p := At(sys, e).channels, At(sys, Peer(e)).wire[At(sys, e).got];
      p.PortOpen? ||
      (&& 0 <= p.chan < |channels|
       && channels[p.chan].conn == p.conn
       && Finds(compat13, channels[p.chan], p))
  }

  lemma ArrivalIsExpected(compat13: bool, conns: seq<Conn>, sys: System, e: End)
    requires Describes(compat13, conns, sys) && Pending(sys, e)
    requires !At(sys, Peer(e)).wire[At(sys, e).got].PortOpen?
    ensures Addressed(compat13, sys, e)
    ensures var p := At(sys, Peer(e)).wire[At(sys, e).got];
      && p.conn < |conns|
      && var s := SideAt(conns[p.conn], e);
      && s.life.Live? && p.chan == s.slot < |At(sys, e).channels| && At(sys, e).channels[s.slot] == s.ch
      && s.sock == SocketOf(At(sys, e).socks, s.ch) && s.ch.conn == p.conn
      && StepOk(p.conn, compat13, conns[p.conn], e, Arrival(compat13, s.ch, p), 1, s.sock)
  {
    hide Of, Arrival, Half;
    var p := At(sys, Peer(e)).wire[At(sys, e).got];
    HeadOfConnection(At(sys, e), At(sys, Peer(e)), conns, e);
    assert Inv(p.conn, compat13, conns[p.conn]);
    ArrivalIsOk(p.conn, compat13, conns[p.conn], e);
  }

  predicate Local(a: Action) {
    a.Prepare? || a.Read? || a.Write? || a.Poll?
  }

  /** The effect of a local action on its slot. */
  function LocalEffect(compat13: bool, ch: Channel, a: Action): Effect
    requires a.Prepare? || a.Read? || (a.Write? && a.n <= |ch.output|) || (a.Poll? && a.n <= |ch.input|)
  {
    match a
    case Prepare(_, _) => PrepareSelect(compat13, ch)
    case Read(_, _, data) => SocketRead(compat13, ch, data)
    case Write(_, _, n) => SocketWrite(compat13, ch, n)
    case Poll(_, _, n) => OutputPoll(compat13, ch, n)
  }

  function LocalSocket(ch: Channel, s: Socket, a: Action): Socket
    requires a.Prepare? || a.Read? || (a.Write? && a.n <= |ch.output|) || a.Poll?
  {
    match a
    case Read(_, _, data) => s.(read := s.read + data, ended := s.ended || data == [])
    case Write(_, _, n) => s.(written := s.written + ch.output[..n], failed := s.failed || n == 0)
    case _ => s
  }

  /** The connections after an action. */
  function Evolved(compat13: bool, maxsize: nat, conns: seq<Conn>, sys: System, a: Action): seq<Conn>
    requires Enabled(compat13, maxsize, sys, a)
  {
    match a
    case Listen(_) => conns
    case OpenRequest(e) => conns + [Requested(|conns|, e, AllocatedSlot(At(sys, e).channels))]
    case Deliver(e, connected) =>
      var p := At(sys, Peer(e)).wire[At(sys, e).got];
      if p.conn >= |conns| then conns
      else if p.PortOpen? then
        conns[p.conn := Answered(conns[p.conn], e, p.conn, AllocatedSlot(At(sys, e).channels), connected)]
      else
        var s := SideAt(conns[p.conn], e);
        conns[p.conn := Acted(conns[p.conn], e, Arrival(compat13, s.ch, p), 1, s.sock)]
    case _ =>
      var ch := At(sys, a.e).channels[a.c];
      if ch.conn >= |conns| then conns
      else
        conns[ch.conn := Acted(conns[ch.conn], a.e, LocalEffect(compat13, ch, a), 0,
                               LocalSocket(ch, SideAt(conns[ch.conn], a.e).sock, a))]
  }

  lemma Occupant(compat13: bool, conns: seq<Conn>, sys: System, e: End, c: nat)
    requires Describes(compat13, conns, sys) && c < |At(sys, e).channels| && Occupied(At(sys, e).channels[c])
    ensures var ch := At(sys, e).channels[c];
      && ch.conn < |conns|
      && var s := SideAt(conns[ch.conn], e);
      && s.life.Live? && s.slot == c && s.ch == ch && s.sock == SocketOf(At(sys, e).socks, ch)
      && Inv(ch.conn, compat13, conns[ch.conn])
  {
    var ch := At(sys, e).channels[c];
    assert Inv(ch.conn, compat13, conns[ch.conn]);
  }

  lemma LocalIsOk(compat13: bool, maxsize: nat, conns: seq<Conn>, sys: System, a: Action)
    requires Describes(compat13, conns, sys) && Local(a) && Enabled(compat13, maxsize, sys, a)
    ensures var ch := At(sys, a.e).channels[a.c];
      && Occupied(ch) && ch.conn < |conns|
      && var s := SideAt(conns[ch.conn], a.e);
      && s.sock == SocketOf(At(sys, a.e).socks, ch)
      && StepOk(ch.conn, compat13, conns[ch.conn], a.e, LocalEffect(compat13, ch, a), 0, LocalSocket(ch, s.sock, a))
  {
    hide AllInOrder, StreamsAgree, SocketRead, SocketWrite, OutputPoll, Inv;
    var ch := At(sys, a.e).channels[a.c];
    Occupant(compat13, conns, sys, a.e, a.c);
    var k, c := ch.conn, conns[ch.conn];
    var sock := LocalSocket(ch, SideAt(c, a.e).sock, a);
    match a
    case Prepare(e, _) => PrepareIsOk(k, compat13, c, e);
    case Read(e, _, data) => ReadIsOk(k, compat13, maxsize, c, e, data, sock);
    case Write(e, _, n) => WriteIsOk(k, compat13, c, e, n, sock);
    case Poll(e, _, n) => PollIsOk(k, compat13, c, e, n);
  }

  /** The state after a local action, read off its effect. */
  lemma LocalNext(compat13: bool, maxsize: nat, sys: System, a: Action)
    requires Local(a) && Enabled(compat13, maxsize, sys, a)
    ensures var ch := At(sys, a.e).channels[a.c];
      Next(compat13, maxsize, sys, a) ==
      Affect(sys, a.e, a.c, LocalEffect(compat13, ch, a), LocalSocket(ch, SocketOf(At(sys, a.e).socks, ch), a))
  {
    hide PrepareSelect, SocketRead, SocketWrite, OutputPoll;
  }

  /** The state after an arrival on the slot the packet names. */
  lemma ArrivalNext(compat13: bool, maxsize: nat, sys: System, e: End, connected: bool, s: Side)
    requires Pending(sys, e) && sys.fault.NoFault?
    requires var h, p := At(sys, e), At(sys, Peer(e)).wire[At(sys, e).got];
      && !p.PortOpen? && p.chan == s.slot < |h.channels|
      && h.channels[s.slot] == s.ch && s.ch.conn == p.conn < |h.socks|
      && s.sock == h.socks[p.conn] && Arrival(compat13, s.ch, p).fault.NoFault?
    ensures var h, p := At(sys, e), At(sys, Peer(e)).wire[At(sys, e).got];
      Next(compat13, maxsize, sys, Deliver(e, connected)) ==
      With(sys, e, Updated(h, s.slot, p.conn, Arrival(compat13, s.ch, p), 1, s.sock))
  {
    hide Arrival;
  }

  lemma LocalStepEvolves(compat13: bool, maxsize: nat, conns: seq<Conn>, sys: System, a: Action)
    requires Describes(compat13, conns, sys) && Local(a) && Enabled(compat13, maxsize, sys, a)
    ensures Describes(compat13, Evolved(compat13, maxsize, conns, sys, a), Next(compat13, maxsize, sys, a))
  {
    hide Describes, StepOk, Next;
    var ch := At(sys, a.e).channels[a.c];
    LocalIsOk(compat13, maxsize, conns, sys, a);
    LocalNext(compat13, maxsize, sys, a);
    LocalStep(compat13, conns, sys, a.e, a.c, LocalEffect(compat13, ch, a),
              LocalSocket(ch, SideAt(conns[ch.conn], a.e).sock, a));
  }

  lemma ArrivalStepEvolves(compat13: bool, maxsize: nat, conns: seq<Conn>, sys: System, e: End, connected: bool)
    requires Describes(compat13, conns, sys) && Pending(sys, e)
    requires !At(sys, Peer(e)).wire[At(sys, e).got].PortOpen?
    ensures Describes(compat13, Evolved(compat13, maxsize, conns, sys, Deliver(e, connected)),
                      Next(compat13, maxsize, sys, Deliver(e, connected)))
  {
    hide Next, AllInOrder, Arrival, Inv, StreamsAgree, SlotsAgree;
    var p := At(sys, Peer(e)).wire[At(sys, e).got];
    ArrivalIsExpected(compat13, conns, sys, e);
    var s := SideAt(conns[p.conn], e);
    ArrivalNext(compat13, maxsize, sys, e, connected, s);
    StepOfOne(compat13, conns, sys, e, p.conn, Arrival(compat13, s.ch, p), 1, s.sock);
  }

  lemma RequestArrives(compat13: bool, conns: seq<Conn>, sys: System, e: End)
    requires Describes(compat13, conns, sys) && Pending(sys, e)
    requires At(sys, Peer(e)).wire[At(sys, e).got].PortOpen?
    ensures var p := At(sys, Peer(e)).wire[At(sys, e).got];
      && p.conn < |conns| && p == PortOpen(SideAt(conns[p.conn], Peer(e)).slot, p.conn)
      && e != conns[p.conn].opener && SideAt(conns[p.conn], e).life.Absent? && SideAt(conns[p.conn], e).got == 0
  {
    hide Of;
    var p := At(sys, Peer(e)).wire[At(sys, e).got];
    HeadOfConnection(At(sys, e), At(sys, Peer(e)), conns, e);
    assert Inv(p.conn, compat13, conns[p.conn]);
    NextPacket(p.conn, compat13, conns[p.conn], e);
  }

  /** Every enabled action, on tables and streams shared by all connections, is a step of at most one connection in
      isolation, and leaves every connection in order. */
  lemma Step(compat13: bool, maxsize: nat, conns: seq<Conn>, sys: System, a: Action)
    requires Describes(compat13, conns, sys) && Enabled(compat13, maxsize, sys, a)
    ensures Describes(compat13, Evolved(compat13, maxsize, conns, sys, a), Next(compat13, maxsize, sys, a))
  {
    hide Describes;
    match a
    case Listen(e) => ListenStep(compat13, conns, sys, e);
    case OpenRequest(e) => RequestStep(compat13, conns, sys, e);
    case Deliver(e, connected) =>
      var p := At(sys, Peer(e)).wire[At(sys, e).got];
      if p.PortOpen? {
        RequestArrives(compat13, conns, sys, e);
        AnswerStep(compat13, conns, sys, e, p.conn, connected);
      } else {
        ArrivalStepEvolves(compat13, maxsize, conns, sys, e, connected);
      }
    case _ => LocalStepEvolves(compat13, maxsize, conns, sys, a);
  }
}
