/** What the channel operations do when they are called at the wrong time: which of a peer's mistakes are noticed, and
    that an operation that complains has done nothing. No run comes to any of this. */
module ChannelFaults {
  import opened Wire
  import opened Channels

  /** Each event happens once: a second one of the same kind is a protocol error of the peer or an error of the program,
      whatever the first found. */
  lemma RepeatsAreNoticed(ch: Channel)
    ensures RcvdIeof(RcvdIeof(ch).ch).fault.ProtocolError?
    ensures RcvdOclose(RcvdOclose(ch).ch).fault.ProtocolError?
    ensures ReadFailed(ReadFailed(ch).ch).fault.InternalError?
    ensures WriteFailed(WriteFailed(ch).ch).fault.InternalError?
    ensures IbufEmpty(IbufEmpty(ch).ch).fault.InternalError?
    ensures ObufEmpty(ObufEmpty(ch).ch).fault.InternalError?
  {
  }

  /** The effect complains about the state it finds. */
  predicate Complains(eff: Effect) {
    eff.fault.ProtocolError? || eff.fault.InternalError?
  }

  predicate Untouched(ch: Channel, eff: Effect) {
    eff.ch == ch && eff.out == []
  }

  /** An event that complains leaves the slot as it was and sends nothing. */
  lemma ComplainingDoesNothing(ch: Channel)
    ensures Complains(SendIeof(ch)) ==> Untouched(ch, SendIeof(ch))
    ensures Complains(SendOclose(ch)) ==> Untouched(ch, SendOclose(ch))
    ensures Complains(RcvdIeof(ch)) ==> Untouched(ch, RcvdIeof(ch))
    ensures Complains(RcvdOclose(ch)) ==> Untouched(ch, RcvdOclose(ch))
    ensures Complains(ReadFailed(ch)) ==> Untouched(ch, ReadFailed(ch))
    ensures Complains(WriteFailed(ch)) ==> Untouched(ch, WriteFailed(ch))
    ensures Complains(IbufEmpty(ch)) ==> Untouched(ch, IbufEmpty(ch))
    ensures Complains(ObufEmpty(ch)) ==> Untouched(ch, ObufEmpty(ch))
  {
  }

  /** Nothing is sent twice: once IEOF or OCLOSE has gone out for a slot, no event of that half sends another. */
  lemma NothingIsSentTwice(ch: Channel)
    ensures ch.istate.InputWaitOclose? || ch.istate.InputClosed? ==>
      SendIeof(ch).out == IbufEmpty(ch).out == RcvdOclose(ch).out == []
    ensures ch.ostate.OutputWaitIeof? || ch.ostate.OutputClosed? ==>
      SendOclose(ch).out == ObufEmpty(ch).out == WriteFailed(ch).out == RcvdIeof(ch).out == []
  {
  }

  /** Data that comes after IEOF, or after the output half has failed, is dropped. */
  lemma LateDataIsDropped(ch: Channel, data: seq<byte>)
    ensures !RcvdIeof(ch).ch.ctype.Free? ==>
      InputData(false, RcvdIeof(ch).ch, data) == Effect(RcvdIeof(ch).ch, [], NoFault)
    ensures !WriteFailed(ch).ch.ctype.Free? ==>
      InputData(false, WriteFailed(ch).ch, data) == Effect(WriteFailed(ch).ch, [], NoFault)
  {
  }

  /** What will not be sent or written any more is thrown away: all that a freed slot holds; the input of one whose peer
      has closed, under 1.3; the output of one whose socket is at its end, under 1.3, or that sends OCLOSE. */
  lemma ThrownAway(ch: Channel)
    ensures !ch.ctype.Free? ==> FreeChannel(ch).ch.input == FreeChannel(ch).ch.output == []
    ensures !ch.ctype.Closed? ==> InputClose(true, ch).ch.input == [] && !PollEligible(true, InputClose(true, ch).ch)
    ensures SocketRead(true, ch, []).ch.output == [] && SocketRead(true, ch, []).ch.input == ch.input
    ensures SendOclose(ch).out != [] ==> SendOclose(ch).ch.output == [] && SendOclose(ch).ch.input == ch.input
  {
  }

  /** A packet for a slot that is not in use, or an answer to a request that is not waiting, disconnects and does
      nothing else. Only the OCLOSE of protocol 1.5 is not checked for this. */
  lemma StraysDisconnect(compat13: bool, ch: Channel, p: Packet)
    requires !p.PortOpen?
    requires if p.OpenConfirmation? || p.OpenFailure? then !ch.ctype.Opening?
             else if p.CloseConfirmation? then compat13 && !ch.ctype.Closed?
             else ch.ctype.Free?
    ensures Arrival(compat13, ch, p) == Effect(ch, [], Disconnected)
  {
  }

  /** A stray OCLOSE of protocol 1.5 passes unnoticed exactly when neither half of the free slot is closed, as in one
      that was never used; IEOF is sent for it unless it has been. */
  lemma StrayOclose(ch: Channel, p: Packet)
    requires ch.ctype.Free? && p.CloseConfirmation?
    ensures Arrival(false, ch, p).fault.NoFault? <==> !ch.istate.InputClosed? && !ch.ostate.OutputClosed?
    ensures Arrival(false, ch, p).out
         == if ch.istate.InputOpen? || ch.istate.InputWaitDrain? then [Close(ch.remoteId, ch.conn)] else []
  {
  }

  // ---------------------------------------------------------------- allocation

  /** A channel takes the lowest free slot; only a table without one grows, by ten blank slots; no other slot
      changes. */
  lemma AllocationLaw(channels: seq<Channel>, ch: Channel, i: nat)
    requires i < |Allocated(channels, ch)|
    ensures var n, now := AllocatedSlot(channels), Allocated(channels, ch);
      && n < |now| && now[n] == ch
      && (i < n ==> i < |channels| && !channels[i].ctype.Free?)
      && (n < |channels| ==> channels[n].ctype.Free?)
      && (i != n ==> now[i] == if i < |channels| then channels[i] else BlankChannel())
      && |now| == |channels| + if exists j :: 0 <= j < |channels| && channels[j].ctype.Free? then 0 else 10
  {
  }
}
