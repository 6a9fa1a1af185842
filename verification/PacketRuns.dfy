/** A sender and a receiver driving the packet layer: what the operations do one after another is the stream and the
    receiver that the theorems of module Packet are about. */
module PacketRuns {
  import opened Wire
  import opened Buffer
  import opened Cipher
  import opened Deattack
  import opened Packet

  lemma {:induction false} OneMoreFrame(st: CipherState, ps: seq<Frame>, p: Frame)
    requires AllPadded(ps) && Padded(p)
    ensures Stream(st, ps + [p]) == Stream(st, ps) + FrameBytes(StateAfter(st, ps), p)
    ensures StateAfter(st, ps + [p]) == After(StateAfter(st, ps), p)
  {
    hide FrameBytes, After, Padded;
    StreamAppend(st, ps, [p]);
    StateAppend(st, ps, [p]);
    var st' := StateAfter(st, ps);
    assert [p][1..] == [];
    assert Stream(st', [p]) == FrameBytes(st', p) + Stream(After(st', p), []);
    assert StateAfter(st', [p]) == StateAfter(After(st', p), []);
  }

  lemma EmptyStream(st: CipherState)
    ensures Stream(st, []) == [] && StateAfter(st, []) == st
  {
  }

  /** Builds one message a character at a time. */
  method Build(layer: PacketLayer, m: Message)
    requires layer.Valid()
    modifies layer.outgoing, layer.outgoing.buf
    ensures layer.Valid() && (layer.outgoing.buf == old(layer.outgoing.buf) || fresh(layer.outgoing.buf))
    ensures |layer.outgoing.Contents()| == 9 + |m.payload| && InPreparation(layer.outgoing.Contents()) == m
  {
    layer.PacketStart(m.kind);
    ghost var start := layer.outgoing.Contents();
    var i := 0;
    while i < |m.payload|
      invariant i <= |m.payload| && layer.Valid()
      invariant layer.outgoing.buf == old(layer.outgoing.buf) || fresh(layer.outgoing.buf)
      invariant layer.outgoing.Contents() == start + m.payload[..i]
    {
      layer.PacketPutChar(m.payload[i]);
      assert start + m.payload[..i] + [m.payload[i]] == start + m.payload[..i+1];
      i := i + 1;
    }
    assert (start + m.payload)[9..] == m.payload;
    assert m.payload[..i] == m.payload;
  }

  /** Builds and sends one message. */
  method SendOne(layer: PacketLayer, m: Message, rand: seq<byte>) returns (ghost p: Frame)
    requires layer.Valid() && |rand| >= 8 && LengthField(m) < 0x1_0000_0000
    modifies layer.outgoing, layer.outgoing.buf, layer.output, layer.output.buf, layer.send
    ensures layer.Valid()
    ensures layer.outgoing.buf == old(layer.outgoing.buf) || fresh(layer.outgoing.buf)
    ensures layer.output.buf == old(layer.output.buf) || fresh(layer.output.buf)
    ensures Padded(p) && p.m == m
    ensures layer.output.Contents() == old(layer.output.Contents()) + FrameBytes(old(layer.send.state), p)
    ensures layer.send.state == After(old(layer.send.state), p)
  {
    hide FrameBytes, After, Padded, FrameInPreparation;
    Build(layer, m);
    p := FrameInPreparation(layer.outgoing.Contents(), layer.random, rand);
    layer.PacketSend(rand);
  }

  /** Sending messages one after another puts out the stream of their frames. */
  method SendAll(layer: PacketLayer, ms: seq<Message>, rands: seq<seq<byte>>) returns (ghost ps: seq<Frame>)
    requires layer.Valid() && |rands| == |ms|
    requires forall i :: 0 <= i < |ms| ==> |rands[i]| >= 8 && LengthField(ms[i]) < 0x1_0000_0000
    modifies layer.outgoing, layer.outgoing.buf, layer.output, layer.output.buf, layer.send
    ensures layer.Valid()
    ensures |ps| == |ms| && AllPadded(ps) && forall i :: 0 <= i < |ms| ==> ps[i].m == ms[i]
    ensures layer.output.Contents() == old(layer.output.Contents()) + Stream(old(layer.send.state), ps)
    ensures layer.send.state == StateAfter(old(layer.send.state), ps)
  {
    hide FrameBytes, After, Padded, Stream, StateAfter;
    ps := [];
    EmptyStream(layer.send.state);
    ghost var st, sent := layer.send.state, layer.output.Contents();
    var i := 0;
    while i < |ms|
      invariant i <= |ms| && layer.Valid() && |ps| == i && AllPadded(ps)
      invariant layer.outgoing.buf == old(layer.outgoing.buf) || fresh(layer.outgoing.buf)
      invariant layer.output.buf == old(layer.output.buf) || fresh(layer.output.buf)
      invariant forall j :: 0 <= j < i ==> ps[j].m == ms[j]
      invariant layer.output.Contents() == sent + Stream(st, ps) && layer.send.state == StateAfter(st, ps)
    {
      ghost var p := SendOne(layer, ms[i], rands[i]);
      OneMoreFrame(st, ps, p);
      assert sent + Stream(st, ps) + FrameBytes(StateAfter(st, ps), p) == sent + Stream(st, ps + [p]);
      ps := ps + [p];
      i := i + 1;
    }
  }

  lemma {:induction false} GoneForGood(detect: seq<byte> -> Verdict, st: CipherState, events: seq<Event>, n: nat)
    requires n <= |events| && Run(detect, st, events[..n]).Gone?
    ensures Run(detect, st, events) == Run(detect, st, events[..n])
    decreases |events| - n
  {
    hide ReadPoll;
    if n == |events| {
      assert events[..n] == events;
    } else {
      assert events[..n+1][..n] == events[..n];
      GoneForGood(detect, st, events, n + 1);
    }
  }

  /** Feeding the layer what arrives and polling it, in any order, is the receiver of the theorems. */
  method Receive(layer: PacketLayer, events: seq<Event>) returns (got: seq<Message>, idle: bool, gone: bool, exit: Exit)
    requires layer.Valid() && layer.input.Contents() == []
    modifies layer.input, layer.input.buf, layer.incoming, layer.incoming.buf, layer.receive
    ensures layer.Valid()
    ensures var r := Run(layer.detect, old(layer.receive.state), events);
      r == if gone then Gone(exit, got) else Reading(layer.receive.state, layer.input.Contents(), got, idle)
  {
    hide ReadPoll;
    ghost var st := layer.receive.state;
    got, idle, gone, exit := [], false, false, Disconnected;
    var i := 0;
    while i < |events|
      invariant i <= |events| && layer.Valid() && !gone
      invariant layer.input.buf == old(layer.input.buf) || fresh(layer.input.buf)
      invariant layer.incoming.buf == old(layer.incoming.buf) || fresh(layer.incoming.buf)
      invariant Run(layer.detect, st, events[..i]) == Reading(layer.receive.state, layer.input.Contents(), got, idle)
    {
      assert events[..i+1][..i] == events[..i];
      match events[i] {
        case Arrive(bytes) =>
          layer.PacketProcessIncoming(bytes);
          idle := false;
        case Poll =>
          var r := layer.PacketReadPoll();
          match r {
            case Ended(why) =>
              GoneForGood(layer.detect, st, events, i + 1);
              gone, exit := true, why;
              return;
            case Nothing(_, _) => idle := true;
            case Received(m, _, _) =>
              got := got + [m];
              idle := false;
          }
      }
      i := i + 1;
    }
    assert events[..i] == events;
  }
}
