/** Channel packets as messages of the packet layer: what channels.c puts into a message and takes out of it, and the
    FIFO streams of channel packets that module ChannelRuns supposes. */
module ChannelWire {
  import opened Wire
  import opened Channels
  import opened Bufaux
  import opened Cipher
  import opened Deattack
  import P = Packet

  const SSH_MSG_CHANNEL_OPEN_CONFIRMATION: byte := 21
  const SSH_MSG_CHANNEL_OPEN_FAILURE: byte := 22
  const SSH_MSG_CHANNEL_DATA: byte := 23
  const SSH_MSG_CHANNEL_CLOSE: byte := 24
  const SSH_MSG_CHANNEL_CLOSE_CONFIRMATION: byte := 25
  const SSH_MSG_PORT_OPEN: byte := 29

  /** Where a connection is to go, and where it comes from, which is sent only if both sides have agreed to. */
  datatype Destination = Destination(host: seq<byte>, port: nat, originator: seq<byte>)

  predicate IsId(id: int) {
    0 <= id < 0x8000_0000
  }

  /** A packet whose numbers and strings have the sizes the formats can carry. */
  predicate Carriable(p: Packet, dest: Destination) {
    IsId(p.chan) &&
    match p
    case OpenConfirmation(_, remote, _) => IsId(remote)
    case Data(_, data, _) => |data| <= MAX_STRING
    case PortOpen(_, _) => |dest.host| <= MAX_STRING && |dest.originator| <= MAX_STRING && dest.port < 0x1_0000_0000
    case _ => true
  }

  function Originator(dest: Destination, named: bool): seq<byte>
    requires |dest.originator| <= MAX_STRING
  {
    if named then PutString(dest.originator) else []
  }

  function Encoded(p: Packet, dest: Destination, named: bool): P.Message
    requires Carriable(p, dest)
  {
    match p
    case OpenConfirmation(chan, remote, _) =>
      P.Message(SSH_MSG_CHANNEL_OPEN_CONFIRMATION, PutInt(chan) + PutInt(remote))
    case OpenFailure(chan, _) => P.Message(SSH_MSG_CHANNEL_OPEN_FAILURE, PutInt(chan))
    case Data(chan, data, _) => P.Message(SSH_MSG_CHANNEL_DATA, PutInt(chan) + PutString(data))
    case Close(chan, _) => P.Message(SSH_MSG_CHANNEL_CLOSE, PutInt(chan))
    case CloseConfirmation(chan, _) => P.Message(SSH_MSG_CHANNEL_CLOSE_CONFIRMATION, PutInt(chan))
    case PortOpen(chan, _) =>
      P.Message(SSH_MSG_PORT_OPEN, PutInt(chan) +
                (PutString(dest.host) + (PutInt(dest.port) + Originator(dest, named))))
  }

  datatype Parse = Malformed | Parsed(p: Packet)

  /** What the dispatcher and the channel routines read; a message with too little or too much in it disconnects (data
      for a channel that no longer takes any is dropped before it is read). */
  function Decoded(m: P.Message, conn: nat, named: bool): Parse {
    match GetInt(m.payload)
    case Fatal => Malformed
    case Taken(chan, rest) =>
      if m.kind == SSH_MSG_CHANNEL_OPEN_CONFIRMATION then
        match GetInt(rest)
        case Fatal => Malformed
        case Taken(remote, end) => if end == [] then Parsed(OpenConfirmation(chan, remote, conn)) else Malformed
      else if m.kind == SSH_MSG_CHANNEL_DATA then
        match GetString(rest)
        case Fatal => Malformed
        case Taken(data, end) => if end == [] then Parsed(Data(chan, data, conn)) else Malformed
      else if m.kind == SSH_MSG_PORT_OPEN then
        match GetString(rest)
        case Fatal => Malformed
        case Taken(_, more) =>
          match GetInt(more)
          case Fatal => Malformed
          case Taken(_, end) =>
            if !named then (if end == [] then Parsed(PortOpen(chan, conn)) else Malformed)
            else
              match GetString(end)
              case Fatal => Malformed
              case Taken(_, none) => if none == [] then Parsed(PortOpen(chan, conn)) else Malformed
      else if rest != [] then Malformed
      else if m.kind == SSH_MSG_CHANNEL_OPEN_FAILURE then Parsed(OpenFailure(chan, conn))
      else if m.kind == SSH_MSG_CHANNEL_CLOSE then Parsed(Close(chan, conn))
      else if m.kind == SSH_MSG_CHANNEL_CLOSE_CONFIRMATION then Parsed(CloseConfirmation(chan, conn))
      else Malformed
  }

  lemma Unspaced(s: seq<byte>)
    ensures s + [] == s
  {
  }

  /** A channel packet comes back out of its message. */
  lemma MessageRoundTrip(p: Packet, dest: Destination, named: bool)
    requires Carriable(p, dest)
    ensures Decoded(Encoded(p, dest, named), p.conn, named) == Parsed(p)
  {
    hide PutInt, PutString, GetInt, GetString;
    match p
    case OpenConfirmation(chan, remote, _) =>
      IntRoundTrip(chan, PutInt(remote));
      IntRoundTrip(remote, []);
      Unspaced(PutInt(remote));
    case Data(chan, data, _) =>
      IntRoundTrip(chan, PutString(data));
      StringRoundTrip(data, []);
      Unspaced(PutString(data));
    case PortOpen(chan, _) =>
      var end := Originator(dest, named);
      IntRoundTrip(chan, PutString(dest.host) + (PutInt(dest.port) + end));
      StringRoundTrip(dest.host, PutInt(dest.port) + end);
      IntRoundTrip(dest.port, end);
      StringRoundTrip(dest.originator, []);
      Unspaced(PutString(dest.originator));
    case _ =>
      IntRoundTrip(p.chan, []);
      Unspaced(PutInt(p.chan));
  }

  /** Every packet has its own message type, and its message starts with a channel number, that of the recipient unless
      it asks for a channel; data follows behind its length, a confirmation gives the number of its sender next. */
  lemma Layout(p: Packet, dest: Destination, named: bool)
    requires Carriable(p, dest)
    ensures Encoded(p, dest, named).kind
         == match p case OpenConfirmation(_, _, _) => 21 case OpenFailure(_, _) => 22 case Data(_, _, _) => 23
            case Close(_, _) => 24 case CloseConfirmation(_, _) => 25 case PortOpen(_, _) => 29
    ensures var s := Encoded(p, dest, named).payload;
      && |s| >= 4 && BnValue(s[..4]) == p.chan
      && (p.Data? ==> |s| == 8 + |p.data| && BnValue(s[4..8]) == |p.data| && s[8..] == p.data)
      && (p.OpenConfirmation? ==> |s| == 8 && BnValue(s[4..8]) == p.remote)
      && (p.PortOpen? ==>
            var n := |dest.host|;
            && |s| >= 12 + n && BnValue(s[4..8]) == n && s[8..8+n] == dest.host
            && BnValue(s[8+n..12+n]) == dest.port)
      && (p.Close? || p.CloseConfirmation? || p.OpenFailure? ==> |s| == 4)
  {
    hide Put32, BnValue;
    var s := Encoded(p, dest, named).payload;
    BigEndian(p.chan, []);
    assert s[..4] == Put32(p.chan);
    match p
    case Data(_, data, _) =>
      BigEndian(|data|, []);
      assert s[4..8] == Put32(|data|);
    case OpenConfirmation(_, remote, _) =>
      BigEndian(remote, []);
      assert s[4..8] == Put32(remote);
    case PortOpen(_, _) =>
      var n := |dest.host|;
      BigEndian(n, []);
      BigEndian(dest.port, []);
      assert s[4..8] == Put32(n) && s[8+n..12+n] == Put32(dest.port);
    case _ =>
  }

  // ---------------------------------------------------------------- sizes

  lemma DataLength(chan: int, data: seq<byte>, conn: nat, dest: Destination, named: bool)
    requires Carriable(Data(chan, data, conn), dest)
    ensures P.LengthField(Encoded(Data(chan, data, conn), dest, named)) == |data| + 13
  {
  }

  /** However much is buffered, the chunk that is sent makes a packet within the length limit exactly when half the
      maximum packet size does. The program accepts maximum sizes up to 1 MiB, for which it does not. */
  lemma ChunksFit(maxsize: nat)
    ensures (forall interactive: bool, len: nat :: ChunkSize(interactive, maxsize, len) + 13 <= P.MAX_PACKET)
            <==> maxsize / 2 + 13 <= P.MAX_PACKET
  {
    assert ChunkSize(false, maxsize, maxsize) == maxsize / 2;
  }

  // ---------------------------------------------------------------- streams

  function Frames(ps: seq<Packet>, dests: nat -> Destination, named: bool, pads: seq<seq<byte>>): (fs: seq<P.Frame>)
    requires |pads| == |ps| && forall i :: 0 <= i < |ps| ==> Carriable(ps[i], dests(ps[i].conn))
    ensures |fs| == |ps|
  {
    seq(|ps|, i requires 0 <= i < |ps| => P.Frame(pads[i], Encoded(ps[i], dests(ps[i].conn), named)))
  }

  /** Every channel packet is a message the caller sees. */
  lemma {:induction false} AllVisible(fs: seq<P.Frame>)
    requires forall i :: 0 <= i < |fs| ==> !P.Skipped(fs[i].m)
    ensures |P.Visible(fs)| == |fs| && forall i :: 0 <= i < |fs| ==> P.Visible(fs)[i] == fs[i].m
    decreases |fs|
  {
    hide P.Skipped;
    if fs != [] {
      AllVisible(fs[1..]);
    }
  }

  /** The packet layer gives the channel protocol its FIFO streams: the channel packets one end sends are read off by
      the other in order, none lost and none made up, however the bytes are cut up and whenever it polls. */
  lemma ChannelStreamArrives(detect: seq<byte> -> Verdict, st: CipherState, ps: seq<Packet>,
                             dests: nat -> Destination, named: bool, pads: seq<seq<byte>>,
                             events: seq<P.Event>)
    requires Keyed(st) && |pads| == |ps| && forall i :: 0 <= i < |ps| ==> Carriable(ps[i], dests(ps[i].conn))
    requires P.Sendable(detect, st, Frames(ps, dests, named, pads))
    requires P.Arrived(events) <= P.Stream(st, Frames(ps, dests, named, pads))
    ensures var r := P.Run(detect, st, events);
      && r.Reading? && |r.got| <= |ps|
      && (forall i :: 0 <= i < |r.got| ==> Decoded(r.got[i], ps[i].conn, named) == Parsed(ps[i]))
      && (P.Arrived(events) == P.Stream(st, Frames(ps, dests, named, pads)) && r.idle ==> |r.got| == |ps|)
  {
    hide Keyed, P.Sendable, P.Arrived, P.Stream, P.Run, Decoded, Carriable, P.Visible;
    var fs := Frames(ps, dests, named, pads);
    forall i | 0 <= i < |fs|
      ensures !P.Skipped(fs[i].m)
    {
      NotSkipped(ps[i], dests(ps[i].conn), named);
    }
    AllVisible(fs);
    P.PacketsArrive(detect, st, fs, events);
    var r := P.Run(detect, st, events);
    forall i | 0 <= i < |r.got|
      ensures Decoded(r.got[i], ps[i].conn, named) == Parsed(ps[i])
    {
      assert r.got[i] == P.Visible(fs)[i] == fs[i].m;
      MessageRoundTrip(ps[i], dests(ps[i].conn), named);
    }
  }

  lemma NotSkipped(p: Packet, dest: Destination, named: bool)
    requires Carriable(p, dest)
    ensures !P.Skipped(Encoded(p, dest, named))
  {
    hide PutInt, PutString;
  }
}
