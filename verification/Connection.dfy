/** One connection seen in isolation: its two sides and the packets each has sent for it. The invariant of such a
    connection, and that every operation on a side keeps it. */
module Connection {
  import opened Wire
  import opened Channels
  import opened ChannelRuns

  datatype Life = Absent | Live | Gone

  /** One side: its slot number, the slot's contents (as they were when the slot was freed, once it is `Gone`), the
      packets it sent for this connection, how many of the peer's it has processed, and its socket. */
  datatype Side = Side(life: Life, slot: nat, ch: Channel, sent: seq<Packet>, got: nat, sock: Socket)

  datatype Conn = Conn(opener: End, client: Side, server: Side)

  function SideAt(c: Conn, e: End): Side {
    if e.Client? then c.client else c.server
  }

  function WithSide(c: Conn, e: End, s: Side): Conn {
    if e.Client? then c.(client := s) else c.(server := s)
  }

  // ---------------------------------------------------------------- what a packet history contains

  function Closes(s: seq<Packet>): nat {
    if s == [] then 0 else Closes(s[..|s|-1]) + if s[|s|-1].Close? then 1 else 0
  }

  function Confirmations(s: seq<Packet>): nat {
    if s == [] then 0 else Confirmations(s[..|s|-1]) + if s[|s|-1].CloseConfirmation? then 1 else 0
  }

  function DataOf(s: seq<Packet>): seq<byte> {
    if s == [] then [] else DataOf(s[..|s|-1]) + if s[|s|-1].Data? then s[|s|-1].data else []
  }

  ghost predicate NoDataAfterClose(s: seq<Packet>) {
    forall i, j :: 0 <= i < j < |s| && s[i].Close? ==> !s[j].Data?
  }

  ghost predicate ConfirmationIsLast(s: seq<Packet>) {
    forall i :: 0 <= i < |s| && s[i].CloseConfirmation? ==> i == |s| - 1
  }

  lemma Appended(s: seq<Packet>, p: Packet)
    ensures Closes(s + [p]) == Closes(s) + if p.Close? then 1 else 0
    ensures Confirmations(s + [p]) == Confirmations(s) + if p.CloseConfirmation? then 1 else 0
    ensures DataOf(s + [p]) == DataOf(s) + if p.Data? then p.data else []
  {
    assert (s + [p])[..|s|] == s;
  }

  lemma TakeOneMore(s: seq<Packet>, n: nat)
    requires n < |s|
    ensures Closes(s[..n+1]) == Closes(s[..n]) + if s[n].Close? then 1 else 0
    ensures Confirmations(s[..n+1]) == Confirmations(s[..n]) + if s[n].CloseConfirmation? then 1 else 0
    ensures DataOf(s[..n+1]) == DataOf(s[..n]) + if s[n].Data? then s[n].data else []
  {
    assert s[..n+1] == s[..n] + [s[n]];
    Appended(s[..n], s[n]);
  }

  /** A prefix contains no more closes and confirmations than the whole, and its data is a prefix. */
  lemma {:induction false} PrefixContains(s: seq<Packet>, n: nat)
    requires n <= |s|
    ensures Closes(s[..n]) <= Closes(s) && Confirmations(s[..n]) <= Confirmations(s)
    ensures DataOf(s[..n]) <= DataOf(s)
    decreases |s|
  {
    if n < |s| {
      PrefixContains(s[..|s|-1], n);
      assert s[..|s|-1][..n] == s[..n];
    } else {
      assert s[..n] == s;
    }
  }

  lemma {:induction false} HasClose(s: seq<Packet>) returns (i: nat)
    requires Closes(s) > 0
    ensures i < |s| && s[i].Close?
  {
    if s[|s|-1].Close? {
      i := |s| - 1;
    } else {
      i := HasClose(s[..|s|-1]);
    }
  }

  lemma {:induction false} HasConfirmation(s: seq<Packet>) returns (i: nat)
    requires Confirmations(s) > 0
    ensures i < |s| && s[i].CloseConfirmation?
  {
    if s[|s|-1].CloseConfirmation? {
      i := |s| - 1;
    } else {
      i := HasConfirmation(s[..|s|-1]);
    }
  }

  lemma NothingBefore(s: seq<Packet>, n: nat)
    requires n < |s|
    ensures NoDataAfterClose(s) && s[n].Data? ==> Closes(s[..n]) == 0
    ensures ConfirmationIsLast(s) ==> Confirmations(s[..n]) == 0
  {
    if NoDataAfterClose(s) && s[n].Data? && Closes(s[..n]) > 0 {
      var i := HasClose(s[..n]);
    }
    if ConfirmationIsLast(s) && Confirmations(s[..n]) > 0 {
      var i := HasConfirmation(s[..n]);
    }
  }

  /** Data may follow as long as no close was sent, and anything as long as no confirmation was. */
  lemma OrderExtends(s: seq<Packet>, p: Packet)
    ensures NoDataAfterClose(s) && (p.Data? ==> Closes(s) == 0) ==> NoDataAfterClose(s + [p])
    ensures Confirmations(s) == 0 ==> ConfirmationIsLast(s + [p])
  {
    forall i | 0 <= i < |s|
      ensures s[i].Close? ==> Closes(s) > 0
      ensures s[i].CloseConfirmation? ==> Confirmations(s) > 0
    {
      TakeOneMore(s, i);
      PrefixContains(s, i + 1);
    }
  }

  // ---------------------------------------------------------------- the invariant of a connection

  function B(b: bool): nat {
    if b then 1 else 0
  }

  predicate IeofSent(ch: Channel) {
    ch.istate.InputWaitOclose? || ch.istate.InputClosed?
  }

  predicate IeofRcvd(ch: Channel) {
    ch.ostate.OutputWaitDrain? || ch.ostate.OutputClosed?
  }

  predicate OcloseSent(ch: Channel) {
    ch.ostate.OutputWaitIeof? || ch.ostate.OutputClosed?
  }

  /** Protocol 1.5: the two states of a side are exactly what it has sent and processed. */
  ghost predicate Half15(s: Side, t: Side)
    requires s.got <= |t.sent|
  {
    var rcvd := t.sent[..s.got];
    && Closes(s.sent) == B(IeofSent(s.ch))
    && Confirmations(s.sent) == B(OcloseSent(s.ch))
    && NoDataAfterClose(s.sent)
    && Closes(rcvd) == B(IeofRcvd(s.ch))
    && Confirmations(rcvd) == B(s.ch.istate.InputClosed?)
    && (s.life.Gone? <==> s.ch.istate.InputClosed? && s.ch.ostate.OutputClosed?)
    && (s.life.Live? ==> s.ch.ctype.Open? || s.ch.ctype.Opening?)
    && (s.ch.ostate.OutputWaitIeof? ==> s.sock.failed)
    && (!s.ch.istate.InputClosed? ==> (s.sock.ended <==> !s.ch.istate.InputOpen?))
    && (s.sock.failed ==> OcloseSent(s.ch))
    && (OcloseSent(s.ch) ==> s.ch.output == [])
    && (IeofSent(s.ch) && !t.sock.failed ==> DataOf(s.sent) == s.sock.read)
    && (!s.sock.failed ==> s.sock.written + s.ch.output == DataOf(rcvd))
  }

  /** Protocol 1.3: likewise for the channel type, with closes `c`, confirmations `f` sent and processed. */
  ghost predicate Half13(s: Side, t: Side)
    requires s.got <= |t.sent|
  {
    var rcvd := t.sent[..s.got];
    var sc, sf, rc, rf := Closes(s.sent), Confirmations(s.sent), Closes(rcvd), Confirmations(rcvd);
    && NoDataAfterClose(s.sent)
    && ConfirmationIsLast(s.sent)
    && s.ch.istate.InputOpen?
    && (sc == 1 ==> DataOf(s.sent) == s.sock.read)
    && (s.sock.failed || s.sock.ended ==> s.ch.output == [])
    && (!s.sock.failed && !s.sock.ended ==> s.sock.written + s.ch.output == DataOf(rcvd))
    && match s.life
       case Absent => false
       case Gone =>
         && s.ch.output == []
         && ((sc == 0 && sf == 1 && rc == 1 && rf == 0) ||
             (sc == 1 && rf == 1 && sf == rc && sf <= 1 && (s.sock.failed || s.sock.ended)))
       case Live =>
         match s.ch.ctype
         case Opening => sc == sf == rc == rf == 0
         case Open => sc == sf == rc == rf == 0 && !s.sock.failed && !s.sock.ended
         case InputDraining => sc == sf == rc == rf == 0 && (s.sock.failed || s.sock.ended)
         case Closed => sc == 1 && rf == 0 && sf == rc && sf <= 1 && (s.sock.failed || s.sock.ended)
         case OutputDraining => sc == 0 && sf == 1 && rc == 1 && rf == 0
         case _ => false
  }

  /** The side may still send data. */
  predicate MaySend(compat13: bool, s: Side) {
    s.life.Live? && (s.ch.ctype.Opening? || PollEligible(compat13, s.ch))
  }

  /** The side still buffers arriving data. */
  predicate Accepting(compat13: bool, s: Side) {
    s.life.Live? && (s.ch.ctype.Opening? || s.ch.ctype.Open?) && (compat13 || s.ch.ostate.OutputOpen?)
  }

  /** Bytes are sent in the order they were read, and written in the order they arrived; a failed write loses some. */
  ghost predicate DataInOrder(compat13: bool, s: Side, t: Side)
    requires s.got <= |t.sent|
  {
    && DataOf(s.sent) <= s.sock.read
    && (MaySend(compat13, s) ==> DataOf(s.sent) + s.ch.input == s.sock.read)
    && s.sock.written + s.ch.output <= DataOf(t.sent[..s.got])
    && (Accepting(compat13, s) ==> s.sock.written + s.ch.output == DataOf(t.sent[..s.got]))
    && (s.sock.failed ==> |s.sock.written| < |DataOf(t.sent[..s.got])|)
  }

  ghost predicate Half(compat13: bool, s: Side, t: Side)
    requires s.got <= |t.sent|
  {
    && DataInOrder(compat13, s, t)
    && if compat13 then Half13(s, t) else Half15(s, t)
  }

  /** After its first packet a side sends only data, closes and confirmations, addressed to the peer's slot. */
  ghost predicate Body(s: seq<Packet>, slot: nat) {
    forall i :: 1 <= i < |s| ==> s[i].chan == slot && (s[i].Data? || s[i].Close? || s[i].CloseConfirmation?)
  }

  ghost predicate Tagged(s: seq<Packet>, k: nat) {
    forall i :: 0 <= i < |s| ==> s[i].conn == k
  }

  ghost predicate LifeMatches(k: nat, s: Side) {
    && (s.life.Live? ==> s.ch.conn == k && !s.ch.ctype.Free? && !s.ch.ctype.PortListener?)
    && (s.life.Gone? ==> s.ch.ctype.Free?)
  }

  /** The opening side before its request is answered. */
  ghost predicate Waiting(a: Side) {
    && a.life.Live? && a.ch.ctype.Opening? && a.got == 0 && |a.sent| == 1
    && a.ch.istate.InputOpen? && a.ch.ostate.OutputOpen? && a.ch.input == a.ch.output == []
    && a.sock == QuietSocket
  }

  /** The accepting side holds no slot: the request is on its way, or was refused. */
  ghost predicate Unaccepted(k: nat, a: Side, b: Side) {
    && a.sock == QuietSocket && b.sock == QuietSocket
    && |a.sent| == 1
    && ( || (b.got == 0 && b.sent == [] && Waiting(a))
         || (b.got == 1 && b.sent == [OpenFailure(a.slot, k)] && (Waiting(a) || (a.life.Gone? && a.got == 1))))
  }

  ghost predicate Accepted(k: nat, compat13: bool, a: Side, b: Side)
    requires a.got <= |b.sent| && b.got <= |a.sent|
  {
    && b.got >= 1 && |b.sent| >= 1 && b.sent[0] == OpenConfirmation(a.slot, b.slot, k)
    && Body(a.sent, b.slot) && Body(b.sent, a.slot)
    && b.ch.remoteId == a.slot && !b.ch.ctype.Opening?
    && (if a.got == 0 then Waiting(a) else a.ch.remoteId == b.slot && !a.ch.ctype.Opening?)
    && Half(compat13, a, b) && Half(compat13, b, a)
  }

  /** The invariant of connection `k`, in terms of its opening and its accepting side. */
  ghost predicate InOrder(k: nat, compat13: bool, a: Side, b: Side) {
    && a.got <= |b.sent| && b.got <= |a.sent|
    && Tagged(a.sent, k) && Tagged(b.sent, k) && LifeMatches(k, a) && LifeMatches(k, b)
    && !a.life.Absent? && |a.sent| >= 1 && a.sent[0] == PortOpen(a.slot, k)
    && if b.life.Absent? then Unaccepted(k, a, b) else Accepted(k, compat13, a, b)
  }

  ghost predicate Inv(k: nat, compat13: bool, c: Conn) {
    InOrder(k, compat13, SideAt(c, c.opener), SideAt(c, Peer(c.opener)))
  }

  // ---------------------------------------------------------------- one side acts

  /** Side `s` after an effect on its slot; `pop` counts the packet processed, if any. */
  function Advanced(s: Side, eff: Effect, pop: nat, sock: Socket): Side {
    s.(ch := eff.ch, life := if eff.ch.ctype.Free? then Gone else s.life,
       sent := s.sent + eff.out, got := s.got + pop, sock := sock)
  }

  /** Side `s` is past the opening handshake and still holds its slot. */
  ghost predicate Settled(k: nat, compat13: bool, s: Side, t: Side) {
    && s.got <= |t.sent| && t.got <= |s.sent|
    && s.life.Live? && LifeMatches(k, s) && !s.ch.ctype.Opening? && s.ch.remoteId == t.slot
    && |s.sent| >= 1 && Tagged(s.sent, k) && Body(s.sent, t.slot)
    && Half(compat13, s, t) && Half(compat13, t, s)
  }

  /** An effect on `s` that keeps the connection in order. */
  ghost predicate Keeps(k: nat, compat13: bool, s: Side, t: Side, eff: Effect, pop: nat, sock: Socket) {
    var s' := Advanced(s, eff, pop, sock);
    && eff.fault.NoFault?
    && eff.ch.remoteId == s.ch.remoteId && eff.ch.conn == k
    && !eff.ch.ctype.Opening? && !eff.ch.ctype.PortListener?
    && (eff.out == [] ||
        (|eff.out| == 1 && eff.out[0].chan == t.slot && eff.out[0].conn == k &&
         (eff.out[0].Data? || eff.out[0].Close? || eff.out[0].CloseConfirmation?)))
    && s'.got <= |t.sent|
    && Half(compat13, s', t)
  }

  /** The histories of a side after an effect. */
  lemma Histories(s: Side, t: Side, eff: Effect, pop: nat)
    requires s.got + pop <= |t.sent| && pop <= 1 && t.got <= |s.sent| && |eff.out| <= 1
    ensures eff.out == [] ==> s.sent + eff.out == s.sent
    ensures eff.out != [] ==>
      && Closes(s.sent + eff.out) == Closes(s.sent) + B(eff.out[0].Close?)
      && Confirmations(s.sent + eff.out) == Confirmations(s.sent) + B(eff.out[0].CloseConfirmation?)
      && DataOf(s.sent + eff.out) == DataOf(s.sent) + (if eff.out[0].Data? then eff.out[0].data else [])
    ensures pop == 1 ==>
      var p := t.sent[s.got];
      && Closes(t.sent[..s.got+1]) == Closes(t.sent[..s.got]) + B(p.Close?)
      && Confirmations(t.sent[..s.got+1]) == Confirmations(t.sent[..s.got]) + B(p.CloseConfirmation?)
      && DataOf(t.sent[..s.got+1]) == DataOf(t.sent[..s.got]) + (if p.Data? then p.data else [])
      && Closes(t.sent[..s.got+1]) <= Closes(t.sent)
      && Confirmations(t.sent[..s.got+1]) <= Confirmations(t.sent)
    ensures eff.out != [] && NoDataAfterClose(s.sent) && (eff.out[0].Data? ==> Closes(s.sent) == 0) ==>
      NoDataAfterClose(s.sent + eff.out)
    ensures eff.out != [] && Confirmations(s.sent) == 0 ==> ConfirmationIsLast(s.sent + eff.out)
    ensures (s.sent + eff.out)[..t.got] == s.sent[..t.got]
    ensures Closes(s.sent[..t.got]) <= Closes(s.sent) && Confirmations(s.sent[..t.got]) <= Confirmations(s.sent)
  {
    if eff.out == [] {
      assert s.sent + eff.out == s.sent;
    } else {
      assert eff.out == [eff.out[0]];
      Appended(s.sent, eff.out[0]);
      OrderExtends(s.sent, eff.out[0]);
    }
    if pop == 1 {
      TakeOneMore(t.sent, s.got);
      PrefixContains(t.sent, s.got + 1);
    }
    PrefixContains(s.sent, t.got);
  }

  lemma ObufEmptyKeeps(k: nat, s: Side, t: Side)
    requires Settled(k, false, s, t) && s.ch.ctype.Open? && s.ch.ostate.OutputWaitDrain? && s.ch.output == []
    ensures Keeps(k, false, s, t, ObufEmpty(s.ch), 0, s.sock)
  {
    hide Closes, Confirmations, DataOf, NoDataAfterClose, ConfirmationIsLast;
    Histories(s, t, ObufEmpty(s.ch), 0);
  }

  lemma DrainedKeeps(k: nat, s: Side, t: Side)
    requires Settled(k, true, s, t) && (s.ch.ctype.InputDraining? || s.ch.ctype.OutputDraining?)
    requires PrepareActs(true, s.ch)
    ensures Keeps(k, true, s, t, PrepareSelect(true, s.ch), 0, s.sock)
  {
    hide Closes, Confirmations, DataOf, NoDataAfterClose, ConfirmationIsLast;
    Histories(s, t, PrepareSelect(true, s.ch), 0);
  }

  lemma PrepareKeeps(k: nat, compat13: bool, s: Side, t: Side)
    requires Settled(k, compat13, s, t) && PrepareActs(compat13, s.ch)
    ensures Keeps(k, compat13, s, t, PrepareSelect(compat13, s.ch), 0, s.sock)
  {
    if compat13 {
      DrainedKeeps(k, s, t);
    } else {
      ObufEmptyKeeps(k, s, t);
    }
  }

  lemma ReadKeeps(k: nat, compat13: bool, maxsize: nat, s: Side, t: Side, data: seq<byte>)
    requires Settled(k, compat13, s, t) && ReadSelected(compat13, maxsize, s.ch)
    ensures Keeps(k, compat13, s, t, SocketRead(compat13, s.ch, data), 0,
                  s.sock.(read := s.sock.read + data, ended := s.sock.ended || data == []))
  {
    hide Closes, Confirmations, DataOf, NoDataAfterClose, ConfirmationIsLast;
    Histories(s, t, SocketRead(compat13, s.ch, data), 0);
    assert DataOf(s.sent) + (s.ch.input + data) == (DataOf(s.sent) + s.ch.input) + data;
  }

  lemma WriteSomeKeeps(k: nat, compat13: bool, s: Side, t: Side, n: nat)
    requires Settled(k, compat13, s, t) && WriteSelected(compat13, s.ch) && 1 <= n <= |s.ch.output|
    ensures Keeps(k, compat13, s, t, SocketWrite(compat13, s.ch, n), 0,
                  s.sock.(written := s.sock.written + s.ch.output[..n]))
  {
    hide Closes, Confirmations, DataOf, NoDataAfterClose, ConfirmationIsLast;
    Histories(s, t, SocketWrite(compat13, s.ch, n), 0);
    assert s.ch.output == s.ch.output[..n] + s.ch.output[n..];
    assert (s.sock.written + s.ch.output[..n]) + s.ch.output[n..] == s.sock.written + s.ch.output;
  }

  lemma WriteFailureKeeps13(k: nat, s: Side, t: Side)
    requires Settled(k, true, s, t) && WriteSelected(true, s.ch)
    ensures Keeps(k, true, s, t, SocketWrite(true, s.ch, 0), 0, s.sock.(failed := true))
  {
    hide Closes, Confirmations, DataOf, NoDataAfterClose, ConfirmationIsLast;
    Histories(s, t, SocketWrite(true, s.ch, 0), 0);
  }

  lemma WriteFailureOpenKeeps(k: nat, s: Side, t: Side)
    requires Settled(k, false, s, t) && WriteSelected(false, s.ch) && s.ch.ostate.OutputOpen?
    ensures Keeps(k, false, s, t, WriteFailed(s.ch), 0, s.sock.(failed := true))
  {
    hide Closes, Confirmations, DataOf, NoDataAfterClose, ConfirmationIsLast;
    Histories(s, t, WriteFailed(s.ch), 0);
  }

  lemma WriteFailureDrainKeeps(k: nat, s: Side, t: Side)
    requires Settled(k, false, s, t) && WriteSelected(false, s.ch) && s.ch.ostate.OutputWaitDrain?
    ensures Keeps(k, false, s, t, WriteFailed(s.ch), 0, s.sock.(failed := true))
  {
    hide Closes, Confirmations, DataOf, NoDataAfterClose, ConfirmationIsLast;
    Histories(s, t, WriteFailed(s.ch), 0);
  }

  lemma WriteKeeps(k: nat, compat13: bool, s: Side, t: Side, n: nat)
    requires Settled(k, compat13, s, t) && WriteSelected(compat13, s.ch) && n <= |s.ch.output|
    ensures Keeps(k, compat13, s, t, SocketWrite(compat13, s.ch, n), 0,
                  s.sock.(written := s.sock.written + s.ch.output[..n], failed := s.sock.failed || n == 0))
  {
    if n == 0 {
      assert s.sock.written + s.ch.output[..0] == s.sock.written;
      if compat13 {
        WriteFailureKeeps13(k, s, t);
      } else if s.ch.ostate.OutputOpen? {
        WriteFailureOpenKeeps(k, s, t);
      } else {
        WriteFailureDrainKeeps(k, s, t);
      }
    } else {
      WriteSomeKeeps(k, compat13, s, t, n);
    }
  }

  lemma PollDataKeeps(k: nat, compat13: bool, s: Side, t: Side, n: nat)
    requires Settled(k, compat13, s, t) && PollEligible(compat13, s.ch) && 1 <= n <= |s.ch.input|
    ensures Keeps(k, compat13, s, t, OutputPoll(compat13, s.ch, n), 0, s.sock)
  {
    hide Closes, Confirmations, DataOf, NoDataAfterClose, ConfirmationIsLast;
    Histories(s, t, OutputPoll(compat13, s.ch, n), 0);
    assert s.ch.input == s.ch.input[..n] + s.ch.input[n..];
    assert (DataOf(s.sent) + s.ch.input[..n]) + s.ch.input[n..] == DataOf(s.sent) + s.ch.input;
  }

  lemma IbufEmptyKeeps(k: nat, s: Side, t: Side)
    requires Settled(k, false, s, t) && PollEligible(false, s.ch) && s.ch.input == [] && s.ch.istate.InputWaitDrain?
    ensures Keeps(k, false, s, t, IbufEmpty(s.ch), 0, s.sock)
  {
    hide Closes, Confirmations, DataOf, NoDataAfterClose, ConfirmationIsLast;
    Histories(s, t, IbufEmpty(s.ch), 0);
  }

  lemma PollKeeps(k: nat, compat13: bool, s: Side, t: Side, n: nat)
    requires Settled(k, compat13, s, t) && PollEligible(compat13, s.ch)
    requires if s.ch.input == [] then n == 0 && s.ch.istate.InputWaitDrain? else 1 <= n <= |s.ch.input|
    ensures Keeps(k, compat13, s, t, OutputPoll(compat13, s.ch, n), 0, s.sock)
  {
    if s.ch.input != [] {
      PollDataKeeps(k, compat13, s, t, n);
    } else {
      IbufEmptyKeeps(k, s, t);
    }
  }

  // ---------------------------------------------------------------- one side processes the peer's next packet

  /** A side that freed its slot has processed everything its peer ever sends it. */
  lemma GoneHasHeardAll(k: nat, compat13: bool, s: Side, t: Side)
    requires s.got <= |t.sent| && t.got <= |s.sent| && Half(compat13, s, t) && Half(compat13, t, s)
    requires s.life.Gone? && 1 <= s.got && Body(t.sent, s.slot)
    ensures s.got == |t.sent|
  {
    if s.got < |t.sent| {
      var p := t.sent[s.got];
      TakeOneMore(t.sent, s.got);
      PrefixContains(t.sent, s.got + 1);
      PrefixContains(s.sent, t.got);
      NothingBefore(t.sent, s.got);
      assert false;
    }
  }

  lemma DataKeeps(k: nat, compat13: bool, s: Side, t: Side)
    requires Settled(k, compat13, s, t) && 1 <= s.got < |t.sent| && t.sent[s.got].Data?
    ensures Keeps(k, compat13, s, t, InputData(compat13, s.ch, t.sent[s.got].data), 1, s.sock)
  {
    hide Closes, Confirmations, DataOf, NoDataAfterClose, ConfirmationIsLast;
    var p := t.sent[s.got];
    Histories(s, t, InputData(compat13, s.ch, p.data), 1);
    assert s.sock.written + (s.ch.output + p.data) == (s.sock.written + s.ch.output) + p.data;
    NothingBefore(t.sent, s.got);
  }

  lemma IeofKeeps(k: nat, s: Side, t: Side)
    requires Settled(k, false, s, t) && 1 <= s.got < |t.sent| && t.sent[s.got].Close?
    ensures Keeps(k, false, s, t, RcvdIeof(s.ch), 1, s.sock)
  {
    hide Closes, Confirmations, DataOf, NoDataAfterClose, ConfirmationIsLast;
    Histories(s, t, RcvdIeof(s.ch), 1);
  }

  lemma CloseKeeps13(k: nat, s: Side, t: Side)
    requires Settled(k, true, s, t) && 1 <= s.got < |t.sent| && t.sent[s.got].Close?
    ensures Keeps(k, true, s, t, InputClose(true, s.ch), 1, s.sock)
  {
    hide Closes, Confirmations, DataOf, NoDataAfterClose, ConfirmationIsLast;
    Histories(s, t, InputClose(true, s.ch), 1);
  }

  lemma CloseKeeps(k: nat, compat13: bool, s: Side, t: Side)
    requires Settled(k, compat13, s, t) && 1 <= s.got < |t.sent| && t.sent[s.got].Close?
    ensures Keeps(k, compat13, s, t, InputClose(compat13, s.ch), 1, s.sock)
  {
    if compat13 {
      CloseKeeps13(k, s, t);
    } else {
      IeofKeeps(k, s, t);
    }
  }

  lemma ConfirmationKeeps13(k: nat, s: Side, t: Side)
    requires Settled(k, true, s, t) && 1 <= s.got < |t.sent| && t.sent[s.got].CloseConfirmation?
    ensures s.ch.ctype.Closed?
    ensures Keeps(k, true, s, t, FreeChannel(s.ch), 1, s.sock)
  {
    hide Closes, Confirmations, DataOf, NoDataAfterClose, ConfirmationIsLast;
    Histories(s, t, FreeChannel(s.ch), 1);
  }

  lemma OcloseAwaitedKeeps(k: nat, s: Side, t: Side)
    requires Settled(k, false, s, t) && 1 <= s.got < |t.sent| && t.sent[s.got].CloseConfirmation?
    requires s.ch.istate.InputWaitOclose?
    ensures Keeps(k, false, s, t, RcvdOclose(s.ch), 1, s.sock)
  {
    hide Closes, Confirmations, DataOf, NoDataAfterClose, ConfirmationIsLast;
    Histories(s, t, RcvdOclose(s.ch), 1);
  }

  /** An OCLOSE that arrives before this side sent its IEOF comes from a peer whose socket failed. */
  lemma EarlyOcloseMeansFailure(k: nat, s: Side, t: Side)
    requires Settled(k, false, s, t) && 1 <= s.got < |t.sent| && t.sent[s.got].CloseConfirmation?
    requires !IeofSent(s.ch)
    ensures t.ch.ostate.OutputWaitIeof? && t.sock.failed && !s.ch.istate.InputClosed?
  {
    hide Closes, Confirmations, DataOf, NoDataAfterClose, ConfirmationIsLast;
    Histories(s, t, Effect(s.ch, [], NoFault), 1);
  }

  lemma OcloseEarlyKeeps(k: nat, s: Side, t: Side)
    requires Settled(k, false, s, t) && 1 <= s.got < |t.sent| && t.sent[s.got].CloseConfirmation?
    requires !IeofSent(s.ch) && t.sock.failed && !s.ch.ostate.OutputClosed?
    ensures Keeps(k, false, s, t, RcvdOclose(s.ch), 1, s.sock)
  {
    hide Closes, Confirmations, DataOf, NoDataAfterClose, ConfirmationIsLast;
    Histories(s, t, RcvdOclose(s.ch), 1);
  }

  lemma OcloseEarlyFrees(k: nat, s: Side, t: Side)
    requires Settled(k, false, s, t) && 1 <= s.got < |t.sent| && t.sent[s.got].CloseConfirmation?
    requires !IeofSent(s.ch) && t.sock.failed && s.ch.ostate.OutputClosed?
    ensures Keeps(k, false, s, t, RcvdOclose(s.ch), 1, s.sock)
  {
    hide Closes, Confirmations, DataOf, NoDataAfterClose, ConfirmationIsLast;
    Histories(s, t, RcvdOclose(s.ch), 1);
  }

  lemma ConfirmationKeeps(k: nat, compat13: bool, s: Side, t: Side)
    requires Settled(k, compat13, s, t) && 1 <= s.got < |t.sent| && t.sent[s.got].CloseConfirmation?
    ensures Keeps(k, compat13, s, t, InputCloseConfirmation(compat13, s.ch), 1, s.sock)
    ensures compat13 ==> s.ch.ctype.Closed?
  {
    if compat13 {
      ConfirmationKeeps13(k, s, t);
    } else {
      Histories(s, t, RcvdOclose(s.ch), 1);
      if IeofSent(s.ch) {
        OcloseAwaitedKeeps(k, s, t);
      } else {
        EarlyOcloseMeansFailure(k, s, t);
        if s.ch.ostate.OutputClosed? {
          OcloseEarlyFrees(k, s, t);
        } else {
          OcloseEarlyKeeps(k, s, t);
        }
      }
    }
  }

  // ---------------------------------------------------------------- steps of the whole connection

  /** The connection after side `e` acted. */
  function Acted(c: Conn, e: End, eff: Effect, pop: nat, sock: Socket): Conn {
    WithSide(c, e, Advanced(SideAt(c, e), eff, pop, sock))
  }

  /** What an effect on side `e` must satisfy for the connection to stay in order. */
  ghost predicate StepOk(k: nat, compat13: bool, c: Conn, e: End, eff: Effect, pop: nat, sock: Socket) {
    && eff.fault.NoFault?
    && eff.ch.conn == k && !eff.ch.ctype.PortListener?
    && Tagged(eff.out, k)
    && Inv(k, compat13, Acted(c, e, eff, pop, sock))
  }

  lemma PeerUnmoved(compat13: bool, s: Side, t: Side, eff: Effect, pop: nat, sock: Socket)
    requires s.got + pop <= |t.sent| && t.got <= |s.sent| && Half(compat13, t, s)
    requires s.sock.failed ==> sock.failed
    ensures Half(compat13, t, Advanced(s, eff, pop, sock))
  {
    assert (s.sent + eff.out)[..t.got] == s.sent[..t.got];
  }

  lemma IsSettled(k: nat, compat13: bool, c: Conn, e: End)
    requires Inv(k, compat13, c)
    requires SideAt(c, e).life.Live? && !SideAt(c, e).ch.ctype.Opening?
    ensures Settled(k, compat13, SideAt(c, e), SideAt(c, Peer(e)))
  {
  }

  lemma OpenerActs(k: nat, compat13: bool, a: Side, b: Side, eff: Effect, pop: nat, sock: Socket)
    requires InOrder(k, compat13, a, b)
    requires a.life.Live? && !a.ch.ctype.Opening? && Keeps(k, compat13, a, b, eff, pop, sock)
    requires a.sock.failed ==> sock.failed
    ensures InOrder(k, compat13, Advanced(a, eff, pop, sock), b)
  {
    hide Half, Closes, Confirmations, DataOf;
    PeerUnmoved(compat13, a, b, eff, pop, sock);
    assert Accepted(k, compat13, Advanced(a, eff, pop, sock), b);
  }

  lemma AccepterActs(k: nat, compat13: bool, a: Side, b: Side, eff: Effect, pop: nat, sock: Socket)
    requires InOrder(k, compat13, a, b)
    requires b.life.Live? && !b.ch.ctype.Opening? && Keeps(k, compat13, b, a, eff, pop, sock)
    requires b.sock.failed ==> sock.failed
    ensures InOrder(k, compat13, a, Advanced(b, eff, pop, sock))
  {
    hide Half, Closes, Confirmations, DataOf;
    PeerUnmoved(compat13, b, a, eff, pop, sock);
    assert Accepted(k, compat13, a, Advanced(b, eff, pop, sock));
  }

  lemma KeepsIsOk(k: nat, compat13: bool, c: Conn, e: End, eff: Effect, pop: nat, sock: Socket)
    requires Inv(k, compat13, c)
    requires SideAt(c, e).life.Live? && !SideAt(c, e).ch.ctype.Opening?
    requires Keeps(k, compat13, SideAt(c, e), SideAt(c, Peer(e)), eff, pop, sock)
    requires SideAt(c, e).sock.failed ==> sock.failed
    ensures StepOk(k, compat13, c, e, eff, pop, sock)
  {
    hide Half, Accepted, Body;
    var s, t := SideAt(c, e), SideAt(c, Peer(e));
    if e == c.opener {
      OpenerActs(k, compat13, s, t, eff, pop, sock);
    } else {
      AccepterActs(k, compat13, t, s, eff, pop, sock);
    }
  }

  lemma PrepareIsOk(k: nat, compat13: bool, c: Conn, e: End)
    requires Inv(k, compat13, c) && SideAt(c, e).life.Live? && PrepareActs(compat13, SideAt(c, e).ch)
    ensures StepOk(k, compat13, c, e, PrepareSelect(compat13, SideAt(c, e).ch), 0, SideAt(c, e).sock)
  {
    var s, t := SideAt(c, e), SideAt(c, Peer(e));
    IsSettled(k, compat13, c, e);
    PrepareKeeps(k, compat13, s, t);
    KeepsIsOk(k, compat13, c, e, PrepareSelect(compat13, s.ch), 0, s.sock);
  }

  lemma ReadIsOk(k: nat, compat13: bool, maxsize: nat, c: Conn, e: End, data: seq<byte>, sock: Socket)
    requires Inv(k, compat13, c) && SideAt(c, e).life.Live? && ReadSelected(compat13, maxsize, SideAt(c, e).ch)
    requires var was := SideAt(c, e).sock; sock == was.(read := was.read + data, ended := was.ended || data == [])
    ensures StepOk(k, compat13, c, e, SocketRead(compat13, SideAt(c, e).ch, data), 0, sock)
  {
    var s, t := SideAt(c, e), SideAt(c, Peer(e));
    IsSettled(k, compat13, c, e);
    ReadKeeps(k, compat13, maxsize, s, t, data);
    KeepsIsOk(k, compat13, c, e, SocketRead(compat13, s.ch, data), 0, sock);
  }

  lemma WriteIsOk(k: nat, compat13: bool, c: Conn, e: End, n: nat, sock: Socket)
    requires Inv(k, compat13, c) && SideAt(c, e).life.Live? && WriteSelected(compat13, SideAt(c, e).ch)
    requires n <= |SideAt(c, e).ch.output|
    requires var s := SideAt(c, e);
      sock == s.sock.(written := s.sock.written + s.ch.output[..n], failed := s.sock.failed || n == 0)
    ensures StepOk(k, compat13, c, e, SocketWrite(compat13, SideAt(c, e).ch, n), 0, sock)
  {
    var s, t := SideAt(c, e), SideAt(c, Peer(e));
    IsSettled(k, compat13, c, e);
    WriteKeeps(k, compat13, s, t, n);
    KeepsIsOk(k, compat13, c, e, SocketWrite(compat13, s.ch, n), 0, sock);
  }

  lemma PollIsOk(k: nat, compat13: bool, c: Conn, e: End, n: nat)
    requires Inv(k, compat13, c) && SideAt(c, e).life.Live? && PollEligible(compat13, SideAt(c, e).ch)
    requires var ch := SideAt(c, e).ch;
      if ch.input == [] then n == 0 && ch.istate.InputWaitDrain? else 1 <= n <= |ch.input|
    ensures StepOk(k, compat13, c, e, OutputPoll(compat13, SideAt(c, e).ch, n), 0, SideAt(c, e).sock)
  {
    var s, t := SideAt(c, e), SideAt(c, Peer(e));
    IsSettled(k, compat13, c, e);
    PollKeeps(k, compat13, s, t, n);
    KeepsIsOk(k, compat13, c, e, OutputPoll(compat13, s.ch, n), 0, s.sock);
  }

  /** What a packet may find in the slot it names. */
  predicate Finds(compat13: bool, ch: Channel, p: Packet) {
    && !ch.ctype.Free? && !ch.ctype.PortListener?
    && (p.OpenConfirmation? || p.OpenFailure? ==> ch.ctype.Opening?)
    && (p.Data? || p.Close? || p.CloseConfirmation? ==> !ch.ctype.Opening?)
    && (p.CloseConfirmation? && compat13 ==> ch.ctype.Closed?)
  }

  /** The packet a side is about to process: an unanswered request names no slot, and everything else names the slot
      this side holds. */
  lemma NextPacket(k: nat, compat13: bool, c: Conn, e: End)
    requires Inv(k, compat13, c) && SideAt(c, e).got < |SideAt(c, Peer(e)).sent|
    ensures var s, p := SideAt(c, e), SideAt(c, Peer(e)).sent[SideAt(c, e).got];
      if p.PortOpen? then e != c.opener && s.life.Absent? && s.got == 0
      else
        && s.life.Live? && p.chan == s.slot
        && (s.ch.ctype.Opening? <==> p.OpenConfirmation? || p.OpenFailure?)
        && (s.ch.ctype.Opening? ==> e == c.opener && s.got == 0)
        && (!s.ch.ctype.Opening? ==> s.got >= 1)
  {
    var s, t := SideAt(c, e), SideAt(c, Peer(e));
    var b := SideAt(c, Peer(c.opener));
    if !b.life.Absent? && s.life.Gone? {
      GoneHasHeardAll(k, compat13, s, t);
    }
  }

  lemma BodyArrivalIsOk(k: nat, compat13: bool, c: Conn, e: End)
    requires Inv(k, compat13, c) && SideAt(c, e).got < |SideAt(c, Peer(e)).sent|
    requires SideAt(c, e).life.Live? && !SideAt(c, e).ch.ctype.Opening?
    requires var p := SideAt(c, Peer(e)).sent[SideAt(c, e).got]; p.Data? || p.Close? || p.CloseConfirmation?
    ensures var s, p := SideAt(c, e), SideAt(c, Peer(e)).sent[SideAt(c, e).got];
      && Finds(compat13, s.ch, p)
      && StepOk(k, compat13, c, e, Arrival(compat13, s.ch, p), 1, s.sock)
  {
    hide Closes, Confirmations, DataOf;
    var s, t := SideAt(c, e), SideAt(c, Peer(e));
    var p := t.sent[s.got];
    IsSettled(k, compat13, c, e);
    NextPacket(k, compat13, c, e);
    if p.Data? {
      DataKeeps(k, compat13, s, t);
    } else if p.Close? {
      CloseKeeps(k, compat13, s, t);
    } else {
      ConfirmationKeeps(k, compat13, s, t);
    }
    KeepsIsOk(k, compat13, c, e, Arrival(compat13, s.ch, p), 1, s.sock);
  }

  lemma ConfirmedIsOk(k: nat, compat13: bool, c: Conn, e: End)
    requires Inv(k, compat13, c) && SideAt(c, e).got < |SideAt(c, Peer(e)).sent|
    requires e == c.opener && Waiting(SideAt(c, e)) && SideAt(c, Peer(e)).sent[0].OpenConfirmation?
    ensures var s, p := SideAt(c, e), SideAt(c, Peer(e)).sent[0];
      StepOk(k, compat13, c, e, InputOpenConfirmation(s.ch, p.remote), 1, s.sock)
  {
    hide Closes, Confirmations, DataOf;
    var s, t := SideAt(c, e), SideAt(c, Peer(e));
    var eff := InputOpenConfirmation(s.ch, t.sent[0].remote);
    Histories(s, t, eff, 1);
    PeerUnmoved(compat13, s, t, eff, 1, s.sock);
  }

  lemma RefusedIsOk(k: nat, compat13: bool, c: Conn, e: End)
    requires Inv(k, compat13, c) && SideAt(c, e).got < |SideAt(c, Peer(e)).sent|
    requires e == c.opener && Waiting(SideAt(c, e)) && SideAt(c, Peer(e)).sent[0].OpenFailure?
    ensures StepOk(k, compat13, c, e, InputOpenFailure(SideAt(c, e).ch), 1, SideAt(c, e).sock)
  {
    var s := SideAt(c, e);
    assert s.sent + InputOpenFailure(s.ch).out == s.sent;
  }

  /** Every packet but a request finds its slot as it should and is processed without complaint. */
  lemma ArrivalIsOk(k: nat, compat13: bool, c: Conn, e: End)
    requires Inv(k, compat13, c) && SideAt(c, e).got < |SideAt(c, Peer(e)).sent|
    requires !SideAt(c, Peer(e)).sent[SideAt(c, e).got].PortOpen?
    ensures var s, p := SideAt(c, e), SideAt(c, Peer(e)).sent[SideAt(c, e).got];
      && s.life.Live? && p.chan == s.slot
      && Finds(compat13, s.ch, p)
      && StepOk(k, compat13, c, e, Arrival(compat13, s.ch, p), 1, s.sock)
  {
    hide Closes, Confirmations, DataOf;
    var s, t := SideAt(c, e), SideAt(c, Peer(e));
    NextPacket(k, compat13, c, e);
    if s.ch.ctype.Opening? {
      if t.sent[0].OpenConfirmation? {
        ConfirmedIsOk(k, compat13, c, e);
      } else {
        RefusedIsOk(k, compat13, c, e);
      }
    } else {
      BodyArrivalIsOk(k, compat13, c, e);
    }
  }

  /** A request is answered: the accepting side takes a slot and confirms, or refuses. */
  function Answered(c: Conn, e: End, k: nat, slot: nat, connected: bool): Conn {
    var p := PortOpen(SideAt(c, Peer(e)).slot, k);
    WithSide(c, e,
      if connected then
        Side(Live, slot, NewChannel(Open, k).(remoteId := p.chan), [OpenConfirmation(p.chan, slot, k)], 1, QuietSocket)
      else SideAt(c, e).(sent := [OpenFailure(p.chan, k)], got := 1))
  }

  lemma SingletonHistory(p: Packet)
    requires p.PortOpen? || p.OpenConfirmation?
    ensures Closes([p]) == Confirmations([p]) == 0 && DataOf([p]) == []
  {
    assert [p] == [] + [p];
    Appended([], p);
  }

  lemma AcceptedAtFirst(k: nat, compat13: bool, a: Side, b: Side)
    requires Waiting(a) && a.sent == [PortOpen(a.slot, k)]
    requires b == Side(Live, b.slot, NewChannel(Open, k).(remoteId := a.slot),
                       [OpenConfirmation(a.slot, b.slot, k)], 1, QuietSocket)
    ensures Accepted(k, compat13, a, b)
  {
    assert a.sent[..1] == a.sent;
    SingletonHistory(a.sent[0]);
    SingletonHistory(b.sent[0]);
  }

  lemma AnsweredIsOk(k: nat, compat13: bool, c: Conn, e: End, slot: nat, connected: bool)
    requires Inv(k, compat13, c) && e != c.opener && SideAt(c, e).life.Absent? && SideAt(c, e).got == 0
    ensures Inv(k, compat13, Answered(c, e, k, slot, connected))
  {
    var a, b := SideAt(c, c.opener), SideAt(Answered(c, e, k, slot, connected), e);
    assert a.sent == [PortOpen(a.slot, k)];
    if connected {
      AcceptedAtFirst(k, compat13, a, b);
    }
  }

  /** A connection that has just been requested. */
  function Requested(k: nat, e: End, slot: nat): Conn {
    var a := Side(Live, slot, NewChannel(Opening, k), [PortOpen(slot, k)], 0, QuietSocket);
    var b := Side(Absent, 0, BlankChannel(), [], 0, QuietSocket);
    WithSide(WithSide(Conn(e, b, b), e, a), Peer(e), b)
  }
}
