/** The channel table as the program keeps it: a growing table of slots, each operation changing one of them. Every
    operation is proved to have exactly the effect that module Channels specifies. */
module ChannelTable {
  import opened Wire
  import opened Channels

  /** The packets and faults of a sweep over slots, in slot order. */
  function Outs(effs: seq<Effect>): seq<Packet> {
    if effs == [] then [] else Outs(effs[..|effs|-1]) + effs[|effs|-1].out
  }

  function Faults(effs: seq<Effect>): Fault {
    if effs == [] then NoFault else First(Faults(effs[..|effs|-1]), effs[|effs|-1].fault)
  }

  /** One more slot of a sweep that began with `sent` and `fault`. */
  lemma SweepOneMore(effs: seq<Effect>, i: nat, sent: seq<Packet>, fault: Fault)
    requires i < |effs|
    ensures sent + Outs(effs[..i+1]) == sent + Outs(effs[..i]) + effs[i].out
    ensures First(fault, Faults(effs[..i+1])) == First(First(fault, Faults(effs[..i])), effs[i].fault)
  {
    assert effs[..i+1][..i] == effs[..i];
    assert sent + (Outs(effs[..i]) + effs[i].out) == sent + Outs(effs[..i]) + effs[i].out;
  }

  lemma SweepBegins(effs: seq<Effect>, sent: seq<Packet>, fault: Fault)
    ensures sent + Outs(effs[..0]) == sent && First(fault, Faults(effs[..0])) == fault
  {
  }

  datatype Ready<T> = NotReady | Ready(value: T)

  /** What the loop after select does to a slot: a read and then a write, unless the read ended the input. */
  function AfterSelect(compat13: bool, ch: Channel, r: Ready<seq<byte>>, w: Ready<nat>): Effect
    requires w.Ready? ==> w.value <= |ch.output|
  {
    if ch.ctype.Open? then
      if r.Ready? && r.value == [] then SocketRead(compat13, ch, [])
      else
        var ch1 := if r.Ready? then SocketRead(compat13, ch, r.value).ch else ch;
        if w.Ready? && ch.output != [] then SocketWrite(compat13, ch1, w.value) else Effect(ch1, [], NoFault)
    else if ch.ctype.OutputDraining? then
      if !compat13 then Effect(ch, [], Fatal)
      else if w.Ready? && ch.output != [] then SocketWrite(compat13, ch, w.value)
      else Effect(ch, [], NoFault)
    else Effect(ch, [], NoFault)
  }

  /** What the output poll does to a slot. */
  function PollOne(compat13: bool, interactive: bool, maxsize: nat, ch: Channel): Effect {
    if !PollEligible(compat13, ch) then Effect(ch, [], NoFault)
    else OutputPoll(compat13, ch, ChunkSize(interactive, maxsize, |ch.input|))
  }

  function Prepared(compat13: bool, channels: seq<Channel>): seq<Effect> {
    seq(|channels|, i requires 0 <= i < |channels| => PrepareSelect(compat13, channels[i]))
  }

  /** Listeners are selected for reading too: they become ready when there is a connection to accept. */
  predicate SelectsRead(compat13: bool, maxsize: nat, ch: Channel) {
    ch.ctype.PortListener? || ReadSelected(compat13, maxsize, ch)
  }

  /** The select masks, one flag per slot. */
  function ReadMask(compat13: bool, maxsize: nat, channels: seq<Channel>): seq<bool> {
    seq(|channels|, i requires 0 <= i < |channels| => SelectsRead(compat13, maxsize, channels[i]))
  }

  function WriteMask(compat13: bool, channels: seq<Channel>): seq<bool> {
    seq(|channels|, i requires 0 <= i < |channels| => WriteSelected(compat13, channels[i]))
  }

  lemma MaskOneMore(compat13: bool, maxsize: nat, channels: seq<Channel>, i: nat)
    requires i < |channels|
    ensures ReadMask(compat13, maxsize, channels)[..i+1]
      == ReadMask(compat13, maxsize, channels)[..i] + [SelectsRead(compat13, maxsize, channels[i])]
    ensures WriteMask(compat13, channels)[..i+1]
      == WriteMask(compat13, channels)[..i] + [WriteSelected(compat13, channels[i])]
  {
  }

  /** A table, what it has sent and complained about, and the number of the next connection it opens. */
  datatype Table = Table(channels: seq<Channel>, sent: seq<Packet>, fault: Fault, next: nat)

  /** What the loop after select does at slot `c`: a listener that is ready accepts a connection, which takes a slot of
      its own and is announced to the peer; any other slot is read and written. */
  function AfterStep(compat13: bool, t: Table, c: nat, r: Ready<seq<byte>>, w: Ready<nat>): (r': Table)
    requires c < |t.channels|
    ensures |r'.channels| >= |t.channels|
  {
    var ch := t.channels[c];
    if ch.ctype.PortListener? then
      if !r.Ready? then t
      else
        Table(Allocated(t.channels, NewChannel(Opening, t.next)),
              t.sent + [PortOpen(AllocatedSlot(t.channels), t.next)], t.fault, t.next + 1)
    else
      var eff := AfterSelect(compat13, ch, r, if w.Ready? && w.value <= |ch.output| then w else NotReady);
      t.(channels := t.channels[c := eff.ch], sent := t.sent + eff.out, fault := First(t.fault, eff.fault))
  }

  /** The first `n` slots of the loop after select. */
  function AfterAll(compat13: bool, t: Table, gave: seq<Ready<seq<byte>>>, took: seq<Ready<nat>>, n: nat): (r: Table)
    requires n <= |gave| && n <= |took| && n <= |t.channels|
    ensures |r.channels| >= |t.channels|
  {
    if n == 0 then t
    else AfterStep(compat13, AfterAll(compat13, t, gave, took, n - 1), n - 1, gave[n-1], took[n-1])
  }

  /** What select reports: only sockets it was asked about, and no more written than there was. */
  ghost predicate Reported(compat13: bool, maxsize: nat, channels: seq<Channel>, gave: seq<Ready<seq<byte>>>,
                           took: seq<Ready<nat>>) {
    && |gave| == |took| == |channels|
    && (forall i :: 0 <= i < |channels| && gave[i].Ready? ==> SelectsRead(compat13, maxsize, channels[i]))
    && (forall i :: 0 <= i < |channels| && took[i].Ready? ==>
          WriteSelected(compat13, channels[i]) && took[i].value <= |channels[i].output|)
  }

  /** A slot nothing has happened to yet: unused, or just taken. */
  predicate Untouched(ch: Channel) {
    ch.ctype.Free? || ch.ctype.Opening?
  }

  /** The slots still ahead of the loop are as they were, but for unused ones that accepted connections have taken. */
  ghost predicate Ahead(was: seq<Channel>, now: seq<Channel>, n: nat) {
    && |now| >= |was|
    && forall j :: n <= j < |now| ==>
         if j < |was| && !was[j].ctype.Free? then now[j] == was[j] else Untouched(now[j])
  }

  lemma AllocationStaysAhead(was: seq<Channel>, now: seq<Channel>, n: nat, ch: Channel)
    requires Ahead(was, now, n) && ch.ctype.Opening?
    ensures Ahead(was, Allocated(now, ch), n)
  {
  }

  lemma StepStaysAhead(compat13: bool, was: seq<Channel>, t: Table, c: nat, r: Ready<seq<byte>>, w: Ready<nat>)
    requires c < |t.channels| && Ahead(was, t.channels, c)
    ensures Ahead(was, AfterStep(compat13, t, c, r, w).channels, c + 1)
  {
    hide AfterSelect, Allocated;
    if t.channels[c].ctype.PortListener? {
      AllocationStaysAhead(was, t.channels, c, NewChannel(Opening, t.next));
    }
  }

  lemma {:induction false} AfterAllAhead(compat13: bool, t: Table, gave: seq<Ready<seq<byte>>>, took: seq<Ready<nat>>,
                                         n: nat)
    requires n <= |gave| && n <= |took| && n <= |t.channels|
    ensures Ahead(t.channels, AfterAll(compat13, t, gave, took, n).channels, n)
  {
    hide AfterStep, Ahead;
    if n > 0 {
      AfterAllAhead(compat13, t, gave, took, n - 1);
      StepStaysAhead(compat13, t.channels, AfterAll(compat13, t, gave, took, n - 1), n - 1, gave[n-1], took[n-1]);
    } else {
      NothingDoneYet(t.channels);
    }
  }

  lemma NothingDoneYet(channels: seq<Channel>)
    ensures Ahead(channels, channels, 0)
  {
  }

  /** A slot whose socket is reported ready is still as it was when the loop comes to it. */
  lemma ReportedSlot(compat13: bool, maxsize: nat, was: seq<Channel>, now: seq<Channel>, gave: seq<Ready<seq<byte>>>,
                     took: seq<Ready<nat>>, i: nat)
    requires Reported(compat13, maxsize, was, gave, took) && Ahead(was, now, i) && i < |was|
    ensures gave[i].Ready? ==> now[i] == was[i] && SelectsRead(compat13, maxsize, now[i])
    ensures took[i].Ready? ==> now[i] == was[i] && WriteSelected(compat13, now[i]) && took[i].value <= |now[i].output|
    ensures !was[i].ctype.Free? ==> now[i] == was[i]
    ensures was[i].ctype.Free? ==> Untouched(now[i]) && gave[i].NotReady? && took[i].NotReady?
  {
  }

  lemma SelectLengths(compat13: bool, maxsize: nat, channels: seq<Channel>, gave: seq<Ready<seq<byte>>>,
                      took: seq<Ready<nat>>)
    requires Reported(compat13, maxsize, channels, gave, took)
    ensures |gave| == |took| == |channels|
  {
  }

  /** An unused slot, or one just taken, is passed over. */
  lemma UntouchedIsPassed(compat13: bool, t: Table, c: nat)
    requires c < |t.channels| && Untouched(t.channels[c])
    ensures AfterStep(compat13, t, c, NotReady, NotReady) == t
  {
    assert t.channels[c := t.channels[c]] == t.channels && t.sent + [] == t.sent;
  }

  /** The loop passes over the slots by which the table has grown. */
  lemma NewSlotsArePassed(compat13: bool, was: seq<Channel>, t: Table, c: nat)
    requires Ahead(was, t.channels, |was|) && |was| <= c < |t.channels|
    ensures AfterStep(compat13, t, c, NotReady, NotReady) == t
  {
    UntouchedIsPassed(compat13, t, c);
  }

  function Polled(compat13: bool, interactive: bool, maxsize: nat, channels: seq<Channel>): seq<Effect> {
    seq(|channels|, i requires 0 <= i < |channels| => PollOne(compat13, interactive, maxsize, channels[i]))
  }

  class ChannelTable {
    const compat13: bool
    const maxsize: nat
    var channels: seq<Channel>
    var sent: seq<Packet>
    var fault: Fault

    constructor (compat13: bool, maxsize: nat)
      ensures this.compat13 == compat13 && this.maxsize == maxsize
      ensures channels == [] && sent == [] && fault.NoFault?
    {
      this.compat13, this.maxsize := compat13, maxsize;
      channels, sent, fault := [], [], NoFault;
    }

    /** The table is as before but for an effect on slot `c`. */
    ghost predicate Did(channels0: seq<Channel>, sent0: seq<Packet>, fault0: Fault, c: nat, eff: Effect)
      reads this
      requires c < |channels0|
    {
      channels == channels0[c := eff.ch] && sent == sent0 + eff.out && fault == First(fault0, eff.fault)
    }

    /** The table is as before but for the effects of a sweep on all slots. */
    ghost predicate Swept(sent0: seq<Packet>, fault0: Fault, effs: seq<Effect>)
      reads this
    {
      && |channels| == |effs|
      && (forall i :: 0 <= i < |effs| ==> channels[i] == effs[i].ch)
      && sent == sent0 + Outs(effs) && fault == First(fault0, Faults(effs))
    }

    method Complain(f: Fault)
      modifies this`fault
      ensures fault == First(old(fault), f)
    {
      if fault.NoFault? {
        fault := f;
      }
    }

    method Update(c: nat, ch: Channel)
      requires c < |channels|
      modifies this`channels
      ensures channels == old(channels)[c := ch]
    {
      channels := channels[c := ch];
    }

    method Send(p: Packet)
      modifies this`sent
      ensures sent == old(sent) + [p]
    {
      sent := sent + [p];
    }

    // -------------------------------------------------------------- nchan.c

    method ChanSendIeof(c: nat)
      requires c < |channels|
      modifies this
      ensures Did(old(channels), old(sent), old(fault), c, SendIeof(old(channels[c])))
    {
      match channels[c].istate {
        case InputOpen => Send(Close(channels[c].remoteId, channels[c].conn));
        case InputWaitDrain => Send(Close(channels[c].remoteId, channels[c].conn));
        case _ => Complain(InternalError);
      }
    }

    method ChanSendOclose(c: nat)
      requires c < |channels|
      modifies this
      ensures Did(old(channels), old(sent), old(fault), c, SendOclose(old(channels[c])))
    {
      match channels[c].ostate {
        case OutputOpen =>
          Update(c, channels[c].(output := []));
          Send(CloseConfirmation(channels[c].remoteId, channels[c].conn));
        case OutputWaitDrain =>
          Update(c, channels[c].(output := []));
          Send(CloseConfirmation(channels[c].remoteId, channels[c].conn));
        case _ => Complain(InternalError);
      }
    }

    method ChannelFree(c: int)
      modifies this
      ensures if 0 <= c < |old(channels)| then
                Did(old(channels), old(sent), old(fault), c, FreeChannel(old(channels)[c]))
              else channels == old(channels) && sent == old(sent) && fault == First(old(fault), Disconnected)
    {
      if c < 0 || c >= |channels| || channels[c].ctype.Free? {
        Complain(Disconnected);
        return;
      }
      Update(c, channels[c].(input := []));
      Update(c, channels[c].(output := []));
      Update(c, channels[c].(ctype := Free));
    }

    method ChanDeleteIfFullClosed(c: nat)
      requires c < |channels|
      modifies this
      ensures Did(old(channels), old(sent), old(fault), c,
                  DeleteIfFullClosed(Effect(old(channels[c]), [], NoFault)))
    {
      if channels[c].istate.InputClosed? && channels[c].ostate.OutputClosed? {
        ChannelFree(c);
      }
    }

    method ChanRcvdOclose(c: nat)
      requires c < |channels|
      modifies this
      ensures Did(old(channels), old(sent), old(fault), c, RcvdOclose(old(channels[c])))
    {
      match channels[c].istate {
        case InputWaitOclose =>
          Update(c, channels[c].(istate := InputClosed));
        case InputOpen =>
          ChanSendIeof(c);
          Update(c, channels[c].(istate := InputClosed));
        case InputWaitDrain =>
          ChanSendIeof(c);
          Update(c, channels[c].(istate := InputClosed));
        case InputClosed =>
          Complain(ProtocolError);
          return;
      }
      ChanDeleteIfFullClosed(c);
    }

    method ChanReadFailed(c: nat)
      requires c < |channels|
      modifies this
      ensures Did(old(channels), old(sent), old(fault), c, ReadFailed(old(channels[c])))
    {
      match channels[c].istate {
        case InputOpen => Update(c, channels[c].(istate := InputWaitDrain));
        case _ => Complain(InternalError);
      }
    }

    method ChanIbufEmpty(c: nat)
      requires c < |channels|
      modifies this
      ensures Did(old(channels), old(sent), old(fault), c, IbufEmpty(old(channels[c])))
    {
      if |channels[c].input| != 0 {
        Complain(InternalError);
        return;
      }
      match channels[c].istate {
        case InputWaitDrain =>
          ChanSendIeof(c);
          Update(c, channels[c].(istate := InputWaitOclose));
        case _ => Complain(InternalError);
      }
    }

    method ChanRcvdIeof(c: nat)
      requires c < |channels|
      modifies this
      ensures Did(old(channels), old(sent), old(fault), c, RcvdIeof(old(channels[c])))
    {
      match channels[c].ostate {
        case OutputOpen => Update(c, channels[c].(ostate := OutputWaitDrain));
        case OutputWaitIeof =>
          Update(c, channels[c].(ostate := OutputClosed));
          ChanDeleteIfFullClosed(c);
        case _ => Complain(ProtocolError);
      }
    }

    method ChanWriteFailed(c: nat)
      requires c < |channels|
      modifies this
      ensures Did(old(channels), old(sent), old(fault), c, WriteFailed(old(channels[c])))
    {
      match channels[c].ostate {
        case OutputOpen =>
          ChanSendOclose(c);
          Update(c, channels[c].(ostate := OutputWaitIeof));
        case OutputWaitDrain =>
          ChanSendOclose(c);
          Update(c, channels[c].(ostate := OutputClosed));
          ChanDeleteIfFullClosed(c);
        case _ => Complain(InternalError);
      }
    }

    method ChanObufEmpty(c: nat)
      requires c < |channels|
      modifies this
      ensures Did(old(channels), old(sent), old(fault), c, ObufEmpty(old(channels[c])))
    {
      if |channels[c].output| != 0 {
        Complain(InternalError);
        return;
      }
      match channels[c].ostate {
        case OutputWaitDrain =>
          ChanSendOclose(c);
          Update(c, channels[c].(ostate := OutputClosed));
          ChanDeleteIfFullClosed(c);
        case _ => Complain(InternalError);
      }
    }

    // -------------------------------------------------------------- channels.c: the select loop

    method PrepareSlot(c: nat) returns (toRead: bool, toWrite: bool)
      requires c < |channels|
      modifies this
      ensures Did(old(channels), old(sent), old(fault), c, PrepareSelect(compat13, old(channels[c])))
      ensures toRead == SelectsRead(compat13, maxsize, old(channels[c]))
      ensures toWrite == WriteSelected(compat13, old(channels[c]))
    {
      toRead, toWrite := false, false;
      match channels[c].ctype {
        case PortListener => toRead := true;
        case Open =>
          if compat13 {
            toRead := |channels[c].input| < maxsize;
            toWrite := |channels[c].output| > 0;
            return;
          }
          if channels[c].istate.InputOpen? {
            toRead := |channels[c].input| < maxsize;
          }
          if channels[c].ostate.OutputOpen? || channels[c].ostate.OutputWaitDrain? {
            if |channels[c].output| > 0 {
              toWrite := true;
            } else if channels[c].ostate.OutputWaitDrain? {
              ChanObufEmpty(c);
            }
          }
        case InputDraining =>
          if !compat13 {
            Complain(Fatal);
          } else if |channels[c].input| == 0 {
            Send(Close(channels[c].remoteId, channels[c].conn));
            Update(c, channels[c].(ctype := Closed));
          }
        case OutputDraining =>
          if !compat13 {
            Complain(Fatal);
          } else if |channels[c].output| == 0 {
            ChannelFree(c);
          } else {
            toWrite := true;
          }
        case _ =>
      }
    }

    method ChannelPrepareSelect() returns (readset: seq<bool>, writeset: seq<bool>)
      modifies this
      ensures Swept(old(sent), old(fault), Prepared(compat13, old(channels)))
      ensures readset == ReadMask(compat13, maxsize, old(channels)) && writeset == WriteMask(compat13, old(channels))
    {
      hide PrepareSelect, SelectsRead, WriteSelected, Outs, Faults, First;
      ghost var was := channels;
      ghost var effs := Prepared(compat13, was);
      SweepBegins(effs, sent, fault);
      readset, writeset := [], [];
      var i := 0;
      while i < |channels|
        invariant i <= |channels| == |was|
        invariant forall j :: 0 <= j < i ==> channels[j] == effs[j].ch
        invariant forall j :: i <= j < |was| ==> channels[j] == was[j]
        invariant sent == old(sent) + Outs(effs[..i]) && fault == First(old(fault), Faults(effs[..i]))
        invariant readset == ReadMask(compat13, maxsize, was)[..i]
        invariant writeset == WriteMask(compat13, was)[..i]
        decreases |was| - i
      {
        SweepOneMore(effs, i, old(sent), old(fault));
        MaskOneMore(compat13, maxsize, was, i);
        var toRead, toWrite := PrepareSlot(i);
        readset, writeset := readset + [toRead], writeset + [toWrite];
        i := i + 1;
      }
      assert effs[..i] == effs;
    }

    method AfterSlot(c: nat, r: Ready<seq<byte>>, w: Ready<nat>)
      requires c < |channels| && (w.Ready? ==> w.value <= |channels[c].output|)
      modifies this
      ensures Did(old(channels), old(sent), old(fault), c, AfterSelect(compat13, old(channels[c]), r, w))
    {
      match channels[c].ctype {
        case Open =>
          if r.Ready? {
            if |r.value| <= 0 {
              if compat13 {
                Update(c, channels[c].(output := []));
                Update(c, channels[c].(ctype := InputDraining));
              } else {
                ChanReadFailed(c);
              }
              return;
            }
            Update(c, channels[c].(input := channels[c].input + r.value));
          }
          if w.Ready? && |channels[c].output| > 0 {
            if w.value <= 0 {
              if compat13 {
                Update(c, channels[c].(output := []));
                Update(c, channels[c].(ctype := InputDraining));
              } else {
                ChanWriteFailed(c);
              }
              return;
            }
            Update(c, channels[c].(output := channels[c].output[w.value..]));
          }
        case OutputDraining =>
          if !compat13 {
            Complain(Fatal);
          } else if w.Ready? && |channels[c].output| > 0 {
            if w.value <= 0 {
              Update(c, channels[c].(output := []));
            } else {
              Update(c, channels[c].(output := channels[c].output[w.value..]));
            }
          }
        case _ =>
      }
    }

    /** A connection is accepted: it takes a slot, and the peer is asked to open its end. */
    method AcceptConnection(conn: nat)
      modifies this
      ensures channels == Allocated(old(channels), NewChannel(Opening, conn))
      ensures sent == old(sent) + [PortOpen(AllocatedSlot(old(channels)), conn)] && fault == old(fault)
    {
      var newch := ChannelAllocate(Opening, conn);
      Send(PortOpen(newch, conn));
    }

    /** The loop body, listeners included. */
    method AfterAt(c: nat, r: Ready<seq<byte>>, w: Ready<nat>, next: nat) returns (after: nat)
      requires c < |channels| && (w.Ready? ==> w.value <= |channels[c].output|)
      modifies this
      ensures Table(channels, sent, fault, after)
           == AfterStep(compat13, Table(old(channels), old(sent), old(fault), next), c, r, w)
    {
      hide AfterSelect;
      after := next;
      if channels[c].ctype.PortListener? {
        if r.Ready? {
          AcceptConnection(next);
          after := next + 1;
        }
      } else {
        AfterSlot(c, r, w);
      }
    }

    /** `gave` and `took` say what the sockets that select reported ready did; `next` is the number the first accepted
        connection gets. Accepting may grow the table under the loop. */
    method ChannelAfterSelect(gave: seq<Ready<seq<byte>>>, took: seq<Ready<nat>>, next: nat) returns (after: nat)
      requires Reported(compat13, maxsize, channels, gave, took)
      modifies this
      ensures Table(channels, sent, fault, after)
           == AfterAll(compat13, Table(old(channels), old(sent), old(fault), next), gave, took, |gave|)
    {
      hide AfterStep, Ahead, Reported;
      ghost var t := Table(channels, sent, fault, next);
      var n := |channels|;
      SelectLengths(compat13, maxsize, channels, gave, took);
      NothingDoneYet(channels);
      after := next;
      var i := 0;
      while i < n
        invariant i <= n == |gave| == |took| && n <= |channels|
        invariant Table(channels, sent, fault, after) == AfterAll(compat13, t, gave, took, i)
        invariant Ahead(t.channels, channels, i)
      {
        ReportedSlot(compat13, maxsize, t.channels, channels, gave, took, i);
        StepStaysAhead(compat13, t.channels, Table(channels, sent, fault, after), i, gave[i], took[i]);
        after := AfterAt(i, gave[i], took[i], after);
        i := i + 1;
      }
      // The bound has grown with the table.
      while i < |channels|
        invariant n <= i <= |channels|
        invariant Table(channels, sent, fault, after) == AfterAll(compat13, t, gave, took, n)
        invariant Ahead(t.channels, channels, n)
        decreases |channels| - i
      {
        NewSlotsArePassed(compat13, t.channels, Table(channels, sent, fault, after), i);
        after := AfterAt(i, NotReady, NotReady, after);
        i := i + 1;
      }
    }

    method PollSlot(c: nat, interactive: bool)
      requires c < |channels| && maxsize >= 2
      modifies this
      ensures Did(old(channels), old(sent), old(fault), c, PollOne(compat13, interactive, maxsize, old(channels[c])))
    {
      if compat13 {
        if !channels[c].ctype.Open? && !channels[c].ctype.InputDraining? {
          return;
        }
      } else {
        if !channels[c].ctype.Open? {
          return;
        }
        if !channels[c].istate.InputOpen? && !channels[c].istate.InputWaitDrain? {
          return;
        }
      }
      var len := |channels[c].input|;
      if len > 0 {
        if interactive {
          if len > 1024 {
            len := 512;
          }
        } else if len > maxsize / 2 {
          len := maxsize / 2;
        }
        Send(Data(channels[c].remoteId, channels[c].input[..len], channels[c].conn));
        Update(c, channels[c].(input := channels[c].input[len..]));
      } else if channels[c].istate.InputWaitDrain? {
        if compat13 {
          Complain(Fatal);
        } else {
          ChanIbufEmpty(c);
        }
      }
    }

    method ChannelOutputPoll(interactive: bool)
      requires maxsize >= 2
      modifies this
      ensures Swept(old(sent), old(fault), Polled(compat13, interactive, maxsize, old(channels)))
    {
      hide PollOne, Outs, Faults, First;
      ghost var was := channels;
      ghost var effs := Polled(compat13, interactive, maxsize, was);
      SweepBegins(effs, sent, fault);
      var i := 0;
      while i < |channels|
        invariant i <= |channels| == |was|
        invariant forall j :: 0 <= j < i ==> channels[j] == effs[j].ch
        invariant forall j :: i <= j < |was| ==> channels[j] == was[j]
        invariant sent == old(sent) + Outs(effs[..i]) && fault == First(old(fault), Faults(effs[..i]))
        decreases |was| - i
      {
        SweepOneMore(effs, i, old(sent), old(fault));
        PollSlot(i, interactive);
        i := i + 1;
      }
      assert effs[..i] == effs;
    }

    // -------------------------------------------------------------- channels.c: arriving packets

    /** A packet for a slot outside the table disconnects; otherwise it has the effect of `Arrival`. */
    ghost predicate Arrived(channels0: seq<Channel>, sent0: seq<Packet>, fault0: Fault, p: Packet)
      reads this
      requires !p.PortOpen?
    {
      if 0 <= p.chan < |channels0| then
        Did(channels0, sent0, fault0, p.chan, Arrival(compat13, channels0[p.chan], p))
      else
        channels == channels0 && sent == sent0 && fault == First(fault0, Disconnected)
    }

    method ChannelInputData(id: int, data: seq<byte>, conn: nat)
      modifies this
      ensures Arrived(old(channels), old(sent), old(fault), Data(id, data, conn))
    {
      if id < 0 || id >= |channels| {
        Complain(Disconnected);
        return;
      }
      if channels[id].ctype.Free? {
        Complain(Disconnected);
        return;
      }
      if !channels[id].ctype.Open? {
        return;
      }
      if !compat13 && !channels[id].ostate.OutputOpen? {
        return;
      }
      Update(id, channels[id].(output := channels[id].output + data));
    }

    method ChannelInputClose(id: int, conn: nat)
      modifies this
      ensures Arrived(old(channels), old(sent), old(fault), Close(id, conn))
    {
      if id < 0 || id >= |channels| || channels[id].ctype.Free? {
        Complain(Disconnected);
        return;
      }
      if !compat13 {
        ChanRcvdIeof(id);
        return;
      }
      Send(CloseConfirmation(channels[id].remoteId, channels[id].conn));
      if !channels[id].ctype.Closed? {
        Update(id, channels[id].(input := []));
        Update(id, channels[id].(ctype := OutputDraining));
      }
    }

    method ChannelInputCloseConfirmation(id: int, conn: nat)
      modifies this
      ensures Arrived(old(channels), old(sent), old(fault), CloseConfirmation(id, conn))
    {
      if id < 0 || id >= |channels| {
        Complain(Disconnected);
        return;
      }
      if !compat13 {
        ChanRcvdOclose(id);
        return;
      }
      if !channels[id].ctype.Closed? {
        Complain(Disconnected);
        return;
      }
      ChannelFree(id);
    }

    method ChannelInputOpenConfirmation(id: int, remote: int, conn: nat)
      modifies this
      ensures Arrived(old(channels), old(sent), old(fault), OpenConfirmation(id, remote, conn))
    {
      if id < 0 || id >= |channels| || !channels[id].ctype.Opening? {
        Complain(Disconnected);
        return;
      }
      Update(id, channels[id].(remoteId := remote));
      Update(id, channels[id].(ctype := Open));
    }

    method ChannelInputOpenFailure(id: int, conn: nat)
      modifies this
      ensures Arrived(old(channels), old(sent), old(fault), OpenFailure(id, conn))
    {
      if id < 0 || id >= |channels| || !channels[id].ctype.Opening? {
        Complain(Disconnected);
        return;
      }
      ChannelFree(id);
    }

    // -------------------------------------------------------------- channels.c: allocation

    /** Takes the lowest free slot, growing a full table by ten. */
    method ChannelAllocate(ctype: ChannelType, conn: nat) returns (found: nat)
      modifies this`channels
      ensures found == AllocatedSlot(old(channels))
      ensures channels == Allocated(old(channels), NewChannel(ctype, conn))
    {
      found := 0;
      while found < |channels| && !channels[found].ctype.Free?
        invariant found <= |channels|
        invariant FirstFree(channels, 0) == FirstFree(channels, found)
      {
        found := found + 1;
      }
      if found == |channels| {
        var i := 0;
        ghost var was := channels;
        while i < 10
          invariant i <= 10
          invariant channels == was + seq(i, _ => BlankChannel())
        {
          channels := channels + [BlankChannel()];
          i := i + 1;
        }
      }
      channels := channels[found := NewChannel(ctype, conn)];
    }

    method ChannelInputPortOpen(remote: int, connected: bool, conn: nat)
      modifies this
      ensures connected ==>
        && channels == Allocated(old(channels), NewChannel(Open, conn).(remoteId := remote))
        && sent == old(sent) + [OpenConfirmation(remote, AllocatedSlot(old(channels)), conn)]
      ensures !connected ==> channels == old(channels) && sent == old(sent) + [OpenFailure(remote, conn)]
      ensures fault == old(fault)
    {
      if connected {
        var newch := ChannelAllocate(Open, conn);
        Update(newch, channels[newch].(remoteId := remote));
        Send(OpenConfirmation(remote, newch, conn));
      } else {
        Send(OpenFailure(remote, conn));
      }
    }

    /** The dispatcher: each channel packet goes to the routine for its type. */
    method ChannelInput(p: Packet, connected: bool)
      modifies this
      ensures !p.PortOpen? ==> Arrived(old(channels), old(sent), old(fault), p)
      ensures p.PortOpen? && connected ==>
        && channels == Allocated(old(channels), NewChannel(Open, p.conn).(remoteId := p.chan))
        && sent == old(sent) + [OpenConfirmation(p.chan, AllocatedSlot(old(channels)), p.conn)]
      ensures p.PortOpen? && !connected ==>
        channels == old(channels) && sent == old(sent) + [OpenFailure(p.chan, p.conn)]
      ensures p.PortOpen? ==> fault == old(fault)
    {
      match p {
        case PortOpen(chan, conn) => ChannelInputPortOpen(chan, connected, conn);
        case OpenConfirmation(chan, remote, conn) => ChannelInputOpenConfirmation(chan, remote, conn);
        case OpenFailure(chan, conn) => ChannelInputOpenFailure(chan, conn);
        case Data(chan, data, conn) => ChannelInputData(chan, data, conn);
        case Close(chan, conn) => ChannelInputClose(chan, conn);
        case CloseConfirmation(chan, conn) => ChannelInputCloseConfirmation(chan, conn);
      }
    }

    /** A forwarded port is listened on: its socket takes a slot. */
    method ChannelListen()
      modifies this`channels
      ensures channels == Allocated(old(channels), NewChannel(PortListener, 0))
    {
      var found := ChannelAllocate(PortListener, 0);
    }
  }
}
