/** The packet layer of packet.c: a printer and an incremental parser over byte buffers, with padding, a checksum, and
    ciphers whose state is carried from packet to packet. */
module Packet {
  import opened Wire
  import opened Buffer
  import opened Bufaux
  import opened Cipher
  import Crc32
  import opened Deattack

  const SSH_MSG_DISCONNECT: byte := 1
  const SSH_MSG_IGNORE: byte := 32
  const SSH_MSG_DEBUG: byte := 36

  const MAX_PACKET: nat := 256 * 1024

  datatype Message = Message(kind: byte, payload: seq<byte>)

  /** A message with the padding it was sent with. */
  datatype Frame = Frame(pad: seq<byte>, m: Message)

  /** The length field: type, payload and check bytes. */
  function LengthField(m: Message): nat {
    |m.payload| + 5
  }

  ghost predicate Padded(p: Frame) {
    |p.pad| == 8 - LengthField(p.m) % 8 && LengthField(p.m) < 0x1_0000_0000
  }

  function Covered(p: Frame): seq<byte> {
    p.pad + [p.m.kind] + p.m.payload
  }

  function Plain(p: Frame): (s: seq<byte>)
    ensures |s| == |p.pad| + LengthField(p.m)
  {
    Covered(p) + Put32(Crc32.Checksum(Covered(p)))
  }

  lemma PlainBlocks(p: Frame)
    requires Padded(p)
    ensures WholeBlocks(Plain(p))
  {
    hide Covered;
    var len := LengthField(p.m);
    assert len == 8 * (len / 8) + len % 8;
    assert |Plain(p)| == 8 * (len / 8 + 1);
  }

  /** One packet as it goes out. */
  function FrameBytes(st: CipherState, p: Frame): (s: seq<byte>)
    requires Padded(p)
    ensures |s| == 4 + |p.pad| + LengthField(p.m)
  {
    PlainBlocks(p);
    Put32(LengthField(p.m)) + Encrypted(st, Plain(p))
  }

  function After(st: CipherState, p: Frame): CipherState
    requires Padded(p)
  {
    PlainBlocks(p);
    AfterEncrypt(st, Plain(p))
  }

  ghost predicate AllPadded(ps: seq<Frame>) {
    forall i :: 0 <= i < |ps| ==> Padded(ps[i])
  }

  function StateAfter(st: CipherState, ps: seq<Frame>): CipherState
    requires AllPadded(ps)
    decreases |ps|
  {
    if ps == [] then st else StateAfter(After(st, ps[0]), ps[1..])
  }

  /** A list of packets as it goes out. */
  function Stream(st: CipherState, ps: seq<Frame>): seq<byte>
    requires AllPadded(ps)
    decreases |ps|
  {
    if ps == [] then [] else FrameBytes(st, ps[0]) + Stream(After(st, ps[0]), ps[1..])
  }

  /** The form of a packet as it goes out: a big-endian length of type, data and check bytes, and, enciphered, a whole
      number of blocks that is one to eight bytes longer. */
  lemma FrameFormat(st: CipherState, p: Frame)
    requires Keyed(st) && Padded(p)
    ensures var f := FrameBytes(st, p);
      && |f| >= 12 && |f| % 8 == 4 && BnValue(f[..4]) == |p.m.payload| + 5
      && 1 <= |f| - 4 - (|p.m.payload| + 5) <= 8
      && WholeBlocks(f[4..]) && Decrypted(st, f[4..]) == Plain(p)
  {
    hide Keyed, Encrypted, Decrypted, AfterEncrypt, AfterDecrypt, Put32, BnValue, Plain;
    PlainBlocks(p);
    var f, plain := FrameBytes(st, p), Plain(p);
    BigEndian(LengthField(p.m), []);
    assert f[..4] == Put32(LengthField(p.m)) && f[4..] == Encrypted(st, plain);
    PacketRoundTrip(st, plain);
  }

  /** The form of a packet before it is enciphered: padding, type, data, and the big-endian CRC-32 of all of them. */
  lemma PlainFormat(p: Frame)
    ensures var s, pad := Plain(p), |p.pad|;
      && |s| == pad + |p.m.payload| + 5 && s[..pad] == p.pad && s[pad] == p.m.kind && s[pad+1..|s|-4] == p.m.payload
      && BnValue(s[|s|-4..]) == Crc32.Checksum(s[..|s|-4])
  {
    hide Put32, BnValue, Crc32.Checksum;
    var s, sum := Plain(p), Crc32.Checksum(Covered(p));
    BigEndian(sum, []);
    assert s[..|s|-4] == Covered(p) && s[|s|-4..] == Put32(sum);
  }

  // ---------------------------------------------------------------- the parser

  datatype Exit = BadLength | AttackDetected | BadPadding | BadChecksum | Disconnected | BadString

  datatype Opened = Wait | Stop(exit: Exit) | Opened(m: Message, st: CipherState, rest: seq<byte>)

  function PaddedLen(len: nat): nat {
    (len + 8) / 8 * 8
  }

  /** Checks a decrypted packet with `pad` bytes of padding against its length field. */
  function Unpack(len: nat, pad: nat, plain: seq<byte>, st: CipherState, rest: seq<byte>): Opened
    requires len >= 5 && |plain| >= 4 && |plain| >= pad
  {
    var content := plain[pad..];
    if len != |content| then Stop(BadPadding)
    else if Crc32.Checksum(plain[..|plain|-4]) != Get32(content[len-4..]) then Stop(BadChecksum)
    else
      var body := content[..len-4];
      Opened(Message(body[0], body[1..]), st, rest)
  }

  /** Takes the first packet off the input. */
  function Open(detect: seq<byte> -> Verdict, st: CipherState, q: seq<byte>): (r: Opened)
    ensures r.Opened? ==> |r.rest| < |q|
  {
    if |q| < 12 then Wait
    else
      var len := Get32(q);
      if len < 5 || len > MAX_PACKET then Stop(BadLength)
      else if |q| < 4 + PaddedLen(len) then Wait
      else
        var c, rest := q[4..4+PaddedLen(len)], q[4+PaddedLen(len)..];
        if !st.NoCipher? && detect(c) != Unremarkable then Stop(AttackDetected)
        else Unpack(len, 8 - len % 8, Decrypted(st, c), AfterDecrypt(st, c), rest)
  }

  datatype Polled = Nothing(st: CipherState, input: seq<byte>) | Received(m: Message, st: CipherState, input: seq<byte>)
                  | Ended(exit: Exit)

  /** Reads the next packet that concerns the caller. */
  function ReadPoll(detect: seq<byte> -> Verdict, st: CipherState, q: seq<byte>): Polled
    decreases |q|
  {
    match Open(detect, st, q)
    case Wait => Nothing(st, q)
    case Stop(exit) => Ended(exit)
    case Opened(m, st', rest) =>
      if m.kind == SSH_MSG_DISCONNECT then Ended(if GetString(m.payload).Fatal? then BadString else Disconnected)
      else if m.kind == SSH_MSG_IGNORE then ReadPoll(detect, st', rest)
      else if m.kind == SSH_MSG_DEBUG then
        if GetString(m.payload).Fatal? then Ended(BadString) else ReadPoll(detect, st', rest)
      else Received(m, st', rest)
  }

  // ---------------------------------------------------------------- one packet

  /** The detector lets the packet pass; without a cipher it is not asked. */
  predicate Passes(detect: seq<byte> -> Verdict, st: CipherState, p: Frame)
    requires Padded(p)
  {
    PlainBlocks(p);
    st.NoCipher? || detect(Encrypted(st, Plain(p))) == Unremarkable
  }

  lemma UnpackPlain(p: Frame, st: CipherState, rest: seq<byte>)
    requires Padded(p)
    ensures |Plain(p)| == PaddedLen(LengthField(p.m))
    ensures Unpack(LengthField(p.m), |p.pad|, Plain(p), st, rest) == Opened(p.m, st, rest)
  {
    hide Crc32.Checksum, Get32, Put32;
    var len, plain := LengthField(p.m), Plain(p);
    assert len == 8 * (len / 8) + len % 8;
    assert (len + 8) / 8 == len / 8 + 1;
    var sum := Crc32.Checksum(Covered(p));
    var content := plain[8 - len % 8..];
    assert content == [p.m.kind] + p.m.payload + Put32(sum);
    assert content[len-4..] == Put32(sum);
    assert plain[..|plain|-4] == Covered(p);
    GetPut32(sum, []);
    assert content[..len-4] == [p.m.kind] + p.m.payload;
  }

  lemma FrameFields(st: CipherState, p: Frame, rest: seq<byte>)
    requires Padded(p)
    ensures |FrameBytes(st, p) + rest| >= 12
    ensures Get32(FrameBytes(st, p) + rest) == LengthField(p.m)
    ensures |FrameBytes(st, p)| == 4 + PaddedLen(LengthField(p.m))
  {
    hide Get32, Put32, Encrypted, Plain;
    PlainBlocks(p);
    var len := LengthField(p.m);
    GetPut32(len, Encrypted(st, Plain(p)) + rest);
    assert FrameBytes(st, p) + rest == Put32(len) + (Encrypted(st, Plain(p)) + rest);
    assert len == 8 * (len / 8) + len % 8;
    assert (len + 8) / 8 == len / 8 + 1;
  }

  lemma FrameParts(st: CipherState, p: Frame, rest: seq<byte>)
    requires Padded(p)
    ensures WholeBlocks(Plain(p)) && |FrameBytes(st, p)| == 4 + PaddedLen(LengthField(p.m))
    ensures (FrameBytes(st, p) + rest)[4..|FrameBytes(st, p)|] == Encrypted(st, Plain(p))
    ensures (FrameBytes(st, p) + rest)[|FrameBytes(st, p)|..] == rest
  {
    hide Get32, Put32, Encrypted, Plain, PaddedLen;
    PlainBlocks(p);
    FrameFields(st, p, rest);
  }

  /** Opening is exactly the inverse of sending, within the length limit and past the detector. */
  lemma OpenWhole(detect: seq<byte> -> Verdict, st: CipherState, p: Frame, rest: seq<byte>)
    requires Keyed(st) && Padded(p)
    ensures Open(detect, st, FrameBytes(st, p) + rest) ==
            if LengthField(p.m) > MAX_PACKET then Stop(BadLength)
            else if !Passes(detect, st, p) then Stop(AttackDetected)
            else Opened(p.m, After(st, p), rest)
  {
    hide Get32, Encrypted, Decrypted, Plain, FrameBytes, Keyed, AfterEncrypt, AfterDecrypt, Unpack, PaddedLen;
    FrameFields(st, p, rest);
    if LengthField(p.m) <= MAX_PACKET {
      FrameParts(st, p, rest);
      PacketRoundTrip(st, Plain(p));
      UnpackPlain(p, After(st, p), rest);
    }
  }

  /** A packet of which some is missing is waited for. */
  lemma OpenPart(detect: seq<byte> -> Verdict, st: CipherState, p: Frame, q: seq<byte>)
    requires Padded(p) && LengthField(p.m) <= MAX_PACKET
    requires q < FrameBytes(st, p)
    ensures Open(detect, st, q) == Wait
  {
    hide Encrypted, Decrypted, Plain, FrameBytes, Keyed, AfterEncrypt, AfterDecrypt, Unpack, PaddedLen;
    FrameFields(st, p, []);
    assert FrameBytes(st, p) + [] == FrameBytes(st, p);
  }

  /** The detector's own size limit cuts off exactly the longest packets the length check lets through. */
  lemma LongestPacketIsRefused(st: CipherState, p: Frame)
    requires Padded(p) && LengthField(p.m) <= MAX_PACKET
    ensures WholeBlocks(Plain(p))
    ensures VerdictOf(Encrypted(st, Plain(p))) == BadSize <==> LengthField(p.m) == MAX_PACKET
  {
    hide Encrypted, Plain, AttackAt;
    PlainBlocks(p);
    var len := LengthField(p.m);
    assert |Plain(p)| == len + 8 - len % 8;
    assert len == 8 * (len / 8) + len % 8;
  }

  // ---------------------------------------------------------------- whole streams in pieces

  /** A packet that does not make the receiver stop: not a disconnect, and a debug packet holds a string. */
  predicate Harmless(m: Message) {
    m.kind != SSH_MSG_DISCONNECT && (m.kind == SSH_MSG_DEBUG ==> GetString(m.payload).Taken?)
  }

  ghost predicate Sendable(detect: seq<byte> -> Verdict, st: CipherState, ps: seq<Frame>)
    ensures Sendable(detect, st, ps) ==> AllPadded(ps)
    decreases |ps|
  {
    ps == [] ||
    (Padded(ps[0]) && LengthField(ps[0].m) <= MAX_PACKET && Passes(detect, st, ps[0]) && Harmless(ps[0].m) &&
     Sendable(detect, After(st, ps[0]), ps[1..]))
  }

  predicate Skipped(m: Message) {
    m.kind == SSH_MSG_IGNORE || m.kind == SSH_MSG_DEBUG
  }

  /** The messages a caller should see, in order. */
  function Visible(ps: seq<Frame>): seq<Message> {
    if ps == [] then [] else (if Skipped(ps[0].m) then [] else [ps[0].m]) + Visible(ps[1..])
  }

  lemma KeyedAfter(st: CipherState, p: Frame)
    requires Keyed(st) && Padded(p)
    ensures Keyed(After(st, p))
  {
    hide Plain, Permutation, Encrypted;
  }

  /** `k` packets of `ps` have been taken off the input `q`, leaving `st'` and `q'`. */
  ghost predicate TookOff(st: CipherState, ps: seq<Frame>, q: seq<byte>, k: nat, st': CipherState, q': seq<byte>)
    requires AllPadded(ps)
  {
    k <= |ps| && st' == StateAfter(st, ps[..k]) && q == Stream(st, ps[..k]) + q'
  }

  lemma TookOffOne(st: CipherState, ps: seq<Frame>, rest: seq<byte>, k: nat, st': CipherState, q': seq<byte>)
    requires AllPadded(ps) && ps != [] && TookOff(After(st, ps[0]), ps[1..], rest, k, st', q')
    ensures TookOff(st, ps, FrameBytes(st, ps[0]) + rest, k + 1, st', q')
    ensures Skipped(ps[0].m) ==> Visible(ps[..k+1]) == Visible(ps[1..][..k])
    ensures !Skipped(ps[0].m) ==> Visible(ps[..k+1]) == [ps[0].m] + Visible(ps[1..][..k])
  {
    hide FrameBytes, After, Padded, Skipped;
    assert ps[..k+1][1..] == ps[1..][..k];
    assert ps[..k+1][0] == ps[0];
  }

  lemma TookOffNone(st: CipherState, ps: seq<Frame>, q: seq<byte>)
    requires AllPadded(ps)
    ensures TookOff(st, ps, q, 0, st, q) && Visible(ps[..0]) == []
  {
  }

  /** The result of a poll, against the packets that were sent. */
  ghost predicate PollOk(st: CipherState, ps: seq<Frame>, q: seq<byte>, k: nat, r: Polled)
    requires AllPadded(ps)
  {
    k <= |ps| &&
    match r
    case Ended(_) => false
    case Received(m, st', q') => TookOff(st, ps, q, k, st', q') && Visible(ps[..k]) == [m]
    case Nothing(st', q') =>
      TookOff(st, ps, q, k, st', q') && Visible(ps[..k]) == [] && (k == |ps| || |q'| < |FrameBytes(st', ps[k])|)
  }

  lemma SkippedPoll(st: CipherState, ps: seq<Frame>, rest: seq<byte>, j: nat, r: Polled)
    requires AllPadded(ps) && ps != [] && Skipped(ps[0].m)
    requires PollOk(After(st, ps[0]), ps[1..], rest, j, r)
    ensures PollOk(st, ps, FrameBytes(st, ps[0]) + rest, j + 1, r)
  {
    hide FrameBytes, After, Padded, Visible, Skipped, TookOff;
    TookOffOne(st, ps, rest, j, r.st, r.input);
    if j < |ps[1..]| {
      assert ps[1..][j] == ps[j + 1];
    }
  }

  /** A poll skips what is to be skipped and hands out the next message, or waits for a packet of which some is
      missing. */
  lemma {:induction false} PollIsOk(detect: seq<byte> -> Verdict, st: CipherState, ps: seq<Frame>, q: seq<byte>)
    returns (k: nat)
    requires Keyed(st) && Sendable(detect, st, ps) && q <= Stream(st, ps)
    ensures PollOk(st, ps, q, k, ReadPoll(detect, st, q))
    decreases |ps|
  {
    hide FrameBytes, After, Padded, Keyed, Open, Passes, TookOff, Visible;
    TookOffNone(st, ps, q);
    if ps == [] {
      EmptyInput(detect, st);
      return 0;
    }
    var whole := FrameBytes(st, ps[0]);
    if |q| < |whole| {
      OpenPart(detect, st, ps[0], q);
      return 0;
    }
    var rest := q[|whole|..];
    assert q == whole + rest;
    OpenWhole(detect, st, ps[0], rest);
    KeyedAfter(st, ps[0]);
    if Skipped(ps[0].m) {
      var j := PollIsOk(detect, After(st, ps[0]), ps[1..], rest);
      k := j + 1;
      SkippedPoll(st, ps, rest, j, ReadPoll(detect, After(st, ps[0]), rest));
      assert ReadPoll(detect, st, q) == ReadPoll(detect, After(st, ps[0]), rest);
    } else {
      k := 1;
      TookOffNone(After(st, ps[0]), ps[1..], rest);
      TookOffOne(st, ps, rest, 0, After(st, ps[0]), rest);
    }
  }

  lemma EmptyInput(detect: seq<byte> -> Verdict, st: CipherState)
    ensures ReadPoll(detect, st, []) == Nothing(st, [])
  {
  }

  lemma {:induction false} StateAppend(st: CipherState, a: seq<Frame>, b: seq<Frame>)
    requires AllPadded(a) && AllPadded(b)
    ensures StateAfter(st, a + b) == StateAfter(StateAfter(st, a), b)
    decreases |a|
  {
    hide FrameBytes, After, Padded, Skipped;
    if a == [] {
      assert a + b == b;
    } else {
      StateAppend(After(st, a[0]), a[1..], b);
      assert (a + b)[1..] == a[1..] + b;
    }
  }

  lemma {:induction false} VisibleAppend(a: seq<Frame>, b: seq<Frame>)
    ensures Visible(a + b) == Visible(a) + Visible(b)
    decreases |a|
  {
    hide Skipped;
    if a == [] {
      assert a + b == b;
    } else {
      VisibleAppend(a[1..], b);
      assert (a + b)[1..] == a[1..] + b && (a + b)[0] == a[0];
      var first := if Skipped(a[0].m) then [] else [a[0].m];
      assert first + (Visible(a[1..]) + Visible(b)) == (first + Visible(a[1..])) + Visible(b);
    }
  }

  lemma {:induction false} StreamAppend(st: CipherState, a: seq<Frame>, b: seq<Frame>)
    requires AllPadded(a) && AllPadded(b)
    ensures Stream(st, a + b) == Stream(st, a) + Stream(StateAfter(st, a), b)
    decreases |a|
  {
    hide FrameBytes, After, Padded, Skipped;
    if a == [] {
      assert a + b == b;
    } else {
      StreamAppend(After(st, a[0]), a[1..], b);
      assert (a + b)[1..] == a[1..] + b;
    }
  }

  lemma {:induction false} SendableSuffix(detect: seq<byte> -> Verdict, st: CipherState, ps: seq<Frame>, k: nat)
    requires Keyed(st) && Sendable(detect, st, ps) && k <= |ps|
    ensures Keyed(StateAfter(st, ps[..k]))
    ensures Sendable(detect, StateAfter(st, ps[..k]), ps[k..])
    decreases k
  {
    hide FrameBytes, After, Padded, Passes, Harmless, Keyed;
    if k > 0 {
      KeyedAfter(st, ps[0]);
      SendableSuffix(detect, After(st, ps[0]), ps[1..], k - 1);
      assert ps[..k][1..] == ps[1..][..k-1] && ps[k..] == ps[1..][k-1..];
    } else {
      assert ps[k..] == ps;
    }
  }

  /** What is left of the input after some packets is the start of what the others make. */
  lemma TookOffRest(st: CipherState, ps: seq<Frame>, arrived: seq<byte>, k: nat, st1: CipherState, q1: seq<byte>)
    requires AllPadded(ps) && TookOff(st, ps, arrived, k, st1, q1) && arrived <= Stream(st, ps)
    ensures k <= |ps| && q1 <= Stream(st1, ps[k..])
  {
    hide Stream, StateAfter, Padded;
    var a, b := ps[..k], ps[k..];
    assert ps == a + b;
    StreamAppend(st, a, b);
    var n := |Stream(st, a)|;
    assert q1 == arrived[n..] && Stream(st1, b) == Stream(st, ps)[n..];
    forall i | 0 <= i < |q1|
      ensures q1[i] == Stream(st1, b)[i]
    {
      assert q1[i] == arrived[n + i];
    }
  }

  lemma TookOffMore(st: CipherState, ps: seq<Frame>, arrived: seq<byte>, k: nat, st1: CipherState, q1: seq<byte>,
                    j: nat, st2: CipherState, q2: seq<byte>)
    requires AllPadded(ps) && TookOff(st, ps, arrived, k, st1, q1) && TookOff(st1, ps[k..], q1, j, st2, q2)
    ensures TookOff(st, ps, arrived, k + j, st2, q2)
    ensures Visible(ps[..k+j]) == Visible(ps[..k]) + Visible(ps[k..][..j])
  {
    hide Stream, StateAfter, Padded, Visible;
    assert ps[..k+j] == ps[..k] + ps[k..][..j];
    StreamAppend(st, ps[..k], ps[k..][..j]);
    StateAppend(st, ps[..k], ps[k..][..j]);
    VisibleAppend(ps[..k], ps[k..][..j]);
  }

  // ---------------------------------------------------------------- a receiver

  datatype Event = Arrive(bytes: seq<byte>) | Poll

  /** A receiver: `got` is what its polls have handed out, and it is idle when the last poll found nothing and nothing
      has arrived since. */
  datatype Reader = Reading(st: CipherState, input: seq<byte>, got: seq<Message>, idle: bool)
                  | Gone(exit: Exit, got: seq<Message>)

  function ReaderStep(detect: seq<byte> -> Verdict, r: Reader, e: Event): Reader {
    match r
    case Gone(_, _) => r
    case Reading(st, input, got, _) =>
      match e
      case Arrive(bytes) => Reading(st, input + bytes, got, false)
      case Poll =>
        match ReadPoll(detect, st, input)
        case Ended(exit) => Gone(exit, got)
        case Received(m, st', rest) => Reading(st', rest, got + [m], false)
        case Nothing(st', rest) => Reading(st', rest, got, true)
  }

  function Run(detect: seq<byte> -> Verdict, st: CipherState, events: seq<Event>): Reader {
    if events == [] then Reading(st, [], [], false)
    else ReaderStep(detect, Run(detect, st, events[..|events|-1]), events[|events|-1])
  }

  function Arrived(events: seq<Event>): seq<byte> {
    if events == [] then []
    else
      var e := events[|events|-1];
      Arrived(events[..|events|-1]) + if e.Arrive? then e.bytes else []
  }

  ghost predicate ReaderOk(st: CipherState, ps: seq<Frame>, arrived: seq<byte>, k: nat, r: Reader)
    requires AllPadded(ps)
  {
    r.Reading? && k <= |ps| && TookOff(st, ps, arrived, k, r.st, r.input) && r.got == Visible(ps[..k]) &&
    (r.idle ==> k == |ps| || |r.input| < |FrameBytes(r.st, ps[k])|)
  }

  lemma ArriveIsOk(st: CipherState, ps: seq<Frame>, arrived: seq<byte>, k: nat, r: Reader, bytes: seq<byte>)
    requires AllPadded(ps) && ReaderOk(st, ps, arrived, k, r)
    ensures ReaderOk(st, ps, arrived + bytes, k, Reading(r.st, r.input + bytes, r.got, false))
  {
    hide Stream, StateAfter, Visible, Padded;
    assert arrived + bytes == Stream(st, ps[..k]) + (r.input + bytes);
  }

  lemma ReceivedIsOk(detect: seq<byte> -> Verdict, st: CipherState, ps: seq<Frame>, arrived: seq<byte>, k: nat,
                     r: Reader) returns (k': nat)
    requires Keyed(st) && Sendable(detect, st, ps) && ReaderOk(st, ps, arrived, k, r) && arrived <= Stream(st, ps)
    ensures ReaderOk(st, ps, arrived, k', ReaderStep(detect, r, Poll))
  {
    hide Stream, StateAfter, Visible, Padded, Keyed, Sendable, FrameBytes, ReadPoll;
    assert r.st == StateAfter(st, ps[..k]);
    SendableSuffix(detect, st, ps, k);
    TookOffRest(st, ps, arrived, k, r.st, r.input);
    hide TookOff;
    var j := PollIsOk(detect, r.st, ps[k..], r.input);
    var p := ReadPoll(detect, r.st, r.input);
    TookOffMore(st, ps, arrived, k, r.st, r.input, j, p.st, p.input);
    if j < |ps[k..]| {
      assert ps[k..][j] == ps[k + j];
    }
    k' := k + j;
  }

  /** At every moment the receiver has handed out what was visible of some packets and still holds the start of the
      others. */
  lemma {:induction false} RunIsOk(detect: seq<byte> -> Verdict, st: CipherState, ps: seq<Frame>, events: seq<Event>)
    returns (k: nat)
    requires Keyed(st) && Sendable(detect, st, ps) && Arrived(events) <= Stream(st, ps)
    ensures ReaderOk(st, ps, Arrived(events), k, Run(detect, st, events))
    decreases |events|
  {
    hide Stream, Padded, Keyed, Sendable, FrameBytes, ReadPoll, Passes;
    if events == [] {
      NothingYet(st, ps);
      return 0;
    }
    var before, e := events[..|events|-1], events[|events|-1];
    k := RunIsOk(detect, st, ps, before);
    var r := Run(detect, st, before);
    hide ReaderOk;
    match e {
      case Arrive(bytes) => ArriveIsOk(st, ps, Arrived(before), k, r, bytes);
      case Poll =>
        assert Arrived(events) == Arrived(before);
        k := ReceivedIsOk(detect, st, ps, Arrived(before), k, r);
    }
  }

  lemma NothingYet(st: CipherState, ps: seq<Frame>)
    requires AllPadded(ps)
    ensures ReaderOk(st, ps, [], 0, Reading(st, [], [], false))
  {
  }

  /** However a stream of packets is cut up and whenever the receiver polls, it never exits, it has handed out the
      first messages in order, and once everything has arrived and a poll finds nothing it has handed out all. */
  lemma PacketsArrive(detect: seq<byte> -> Verdict, st: CipherState, ps: seq<Frame>, events: seq<Event>)
    requires Keyed(st) && Sendable(detect, st, ps) && Arrived(events) <= Stream(st, ps)
    ensures var r := Run(detect, st, events);
      && r.Reading? && r.got <= Visible(ps)
      && (Arrived(events) == Stream(st, ps) && r.idle ==> r.got == Visible(ps) && r.input == [])
  {
    hide Run, Arrived, Padded, Keyed, Sendable, FrameBytes, Visible, Stream, StateAfter;
    var k := RunIsOk(detect, st, ps, events);
    var r := Run(detect, st, events);
    var a, b := ps[..k], ps[k..];
    assert ps == a + b;
    StreamAppend(st, a, b);
    VisibleAppend(a, b);
    if Arrived(events) == Stream(st, ps) && r.idle {
      var n := |Stream(st, a)|;
      assert r.input == Arrived(events)[n..];
      assert Stream(r.st, b) == Stream(st, ps)[n..];
      if k < |ps| {
        FirstFrame(r.st, b);
      } else {
        NoFrames(r.st, b);
        assert ps[..k] == ps;
      }
    }
  }

  lemma FirstFrame(st: CipherState, ps: seq<Frame>)
    requires AllPadded(ps) && ps != []
    ensures |Stream(st, ps)| >= |FrameBytes(st, ps[0])|
  {
  }

  lemma NoFrames(st: CipherState, ps: seq<Frame>)
    requires ps == []
    ensures Stream(st, ps) == []
  {
  }

  // ---------------------------------------------------------------- the operations

  /** What packet_start and the calls after it have put together, behind eight bytes kept for padding. */
  function InPreparation(c: seq<byte>): Message
    requires |c| >= 9
  {
    Message(c[8], c[9..])
  }

  /** The last `n` of the eight bytes, or as many random bytes, written from the back. */
  function Pad(kept: seq<byte>, random: bool, rand: seq<byte>, n: nat): (p: seq<byte>)
    requires |kept| == 8 && |rand| >= 8 && n <= 8
    ensures |p| == n
  {
    if random then seq(n, i requires 0 <= i < n => rand[n - 1 - i]) else kept[8 - n..]
  }

  function FrameInPreparation(c: seq<byte>, random: bool, rand: seq<byte>): (p: Frame)
    requires |c| >= 9 && |rand| >= 8 && |c| - 4 < 0x1_0000_0000
    ensures Padded(p) && p.m == InPreparation(c)
  {
    Frame(Pad(c[..8], random, rand, 8 - (|c| - 4) % 8), InPreparation(c))
  }

  method PacketEncrypt(cc: CipherContext, src: seq<byte>) returns (dest: seq<byte>)
    requires WholeBlocks(src)
    modifies cc
    ensures dest == Encrypted(old(cc.state), src) && cc.state == AfterEncrypt(old(cc.state), src)
  {
    var from := new byte[|src|](i requires 0 <= i < |src| => src[i]);
    var to := new byte[|src|];
    assert from[..|src|] == src;
    var ok := cc.CipherEncrypt(to, from, |src|);
    dest := to[..|src|];
  }

  method PacketDecrypt(cc: CipherContext, detect: seq<byte> -> Verdict, src: seq<byte>)
    returns (ok: bool, dest: seq<byte>)
    requires WholeBlocks(src)
    modifies cc
    ensures ok == (old(cc.state).NoCipher? || detect(src) == Unremarkable)
    ensures ok ==> dest == Decrypted(old(cc.state), src) && cc.state == AfterDecrypt(old(cc.state), src)
    ensures !ok ==> cc.state == old(cc.state)
  {
    if !cc.state.NoCipher? {
      if detect(src) != Unremarkable {
        return false, [];
      }
    }
    var from := new byte[|src|](i requires 0 <= i < |src| => src[i]);
    var to := new byte[|src|];
    assert from[..|src|] == src;
    ok := cc.CipherDecrypt(to, from, |src|);
    dest := to[..|src|];
  }

  /** What random padding leaves in an array with data from `at` to `end`. */
  lemma PaddingWritten(was: seq<byte>, now: seq<byte>, at: nat, end: nat, n: nat, rand: seq<byte>)
    requires n <= 8 <= |rand| && at + 8 <= end <= |was| == |now|
    requires forall j :: at + 8 - n <= j < at + 8 ==> now[j] == rand[at + 7 - j]
    requires forall j :: at + 8 <= j < end ==> now[j] == was[j]
    ensures now[at..end][8-n..8] == Pad(was[at..end][..8], true, rand, n)
    ensures now[at..end][8..] == was[at..end][8..]
  {
    var a, b := now[at..end], was[at..end];
    forall k | 8 <= k < end - at
      ensures a[k] == b[k]
    {
      assert a[k] == now[at + k] && b[k] == was[at + k];
    }
    var pad := a[8-n..8];
    forall k | 0 <= k < n
      ensures pad[k] == rand[n - 1 - k]
    {
      assert pad[k] == now[at + 8 - n + k];
    }
  }

  /** Overwrites the `n` bytes before position `top` with random ones, last first. */
  method FillFromBack(buf: array<byte>, top: nat, n: nat, rand: seq<byte>)
    requires n <= top <= buf.Length && n <= |rand|
    modifies buf
    ensures forall j :: top - n <= j < top ==> buf[j] == rand[top - 1 - j]
    ensures forall j :: top <= j < buf.Length ==> buf[j] == old(buf[j])
  {
    for i := 0 to n
      invariant forall j :: top - i <= j < top ==> buf[j] == rand[top - 1 - j]
      invariant forall j :: top <= j < buf.Length ==> buf[j] == old(buf[j])
    {
      buf[top - 1 - i] := rand[i];
    }
  }

  method FillPadding(b: Buffer, n: nat, rand: seq<byte>)
    requires b.Valid() && n <= 8 && |b.Contents()| >= 8 && |rand| >= 8
    modifies b.buf
    ensures b.Valid() && |b.Contents()| == |old(b.Contents())|
    ensures b.Contents()[8-n..8] == Pad(old(b.Contents())[..8], true, rand, n)
    ensures b.Contents()[8..] == old(b.Contents())[8..]
  {
    hide Pad;
    ghost var was := b.buf[..];
    assert b.Contents() == was[b.offset..b.end];
    FillFromBack(b.buf, b.offset + 8, n, rand);
    ghost var now := b.buf[..];
    assert b.Contents() == now[b.offset..b.end];
    PaddingWritten(was, now, b.offset, b.end, n, rand);
  }

  /** Dropping the unused padding leaves what the checksum covers. */
  lemma CoveredInPreparation(c: seq<byte>, padded: seq<byte>, random: bool, rand: seq<byte>)
    requires |c| >= 9 && |rand| >= 8 && |c| - 4 < 0x1_0000_0000
    requires |padded| == |c| && padded[8..] == c[8..]
    requires var n := 8 - (|c| - 4) % 8; padded[8-n..8] == Pad(c[..8], random, rand, n)
    ensures padded[(|c| - 4) % 8..] == Covered(FrameInPreparation(c, random, rand))
  {
    hide Pad;
    var n := 8 - (|c| - 4) % 8;
    assert padded[8-n..] == padded[8-n..8] + padded[8..];
    assert c[8..] == [c[8]] + c[9..];
  }

  /** Pads the packet in preparation and adds the check bytes. */
  method Seal(b: Buffer, random: bool, rand: seq<byte>)
    requires b.Valid() && |rand| >= 8
    requires 9 <= |b.Contents()| && |b.Contents()| - 4 < 0x1_0000_0000
    modifies b, b.buf
    ensures b.Valid() && (b.buf == old(b.buf) || fresh(b.buf))
    ensures b.Contents() == Plain(FrameInPreparation(old(b.Contents()), random, rand))
  {
    hide Crc32.Checksum, Put32, FrameInPreparation, Covered, Pad, Buffer.Contents, Buffer.Valid;
    ghost var c := b.Contents();
    var n := b.Len();
    var padding := 8 - (n - 4) % 8;
    if random {
      FillPadding(b, padding, rand);
    } else {
      KeptPadding(c, padding, rand);
    }
    CoveredInPreparation(c, b.Contents(), random, rand);
    var ok := b.Consume(8 - padding);
    n := b.Len();
    var covered := b.Peek(0, n);
    assert covered == b.Contents();
    var checksum := Crc32.ChecksumOf(covered);
    b.Append(Put32(checksum));
  }

  lemma KeptPadding(c: seq<byte>, n: nat, rand: seq<byte>)
    requires |c| >= 8 && n <= 8 && |rand| >= 8
    ensures c[8-n..8] == Pad(c[..8], false, rand, n)
  {
  }

  lemma UnpackedParts(len: nat, pad: nat, plain: seq<byte>, covered: seq<byte>, field: seq<byte>, body: seq<byte>,
                      st: CipherState, rest: seq<byte>)
    requires len >= 5 && |plain| == len + pad && covered == plain[0..|plain|-4]
    requires field == plain[pad..][len-4..len] && body == plain[pad..][..len-4]
    ensures Unpack(len, pad, plain, st, rest) ==
            if Crc32.Checksum(covered) != Get32(field) then Stop(BadChecksum)
            else Opened(Message(body[0], body[1..]), st, rest)
  {
    hide Get32, Crc32.Checksum;
    assert plain[0..|plain|-4] == plain[..|plain|-4];
    assert plain[pad..][len-4..len] == plain[pad..][len-4..];
  }

  /** Checks a decrypted packet with `pad` bytes of padding and strips it down to its payload. */
  method CheckPacket(b: Buffer, len: nat, pad: nat, st: CipherState, ghost rest: seq<byte>)
    returns (exit: Exit, kind: byte, ok: bool)
    requires b.Valid() && len >= 5 && |b.Contents()| >= 4 && |b.Contents()| >= pad
    modifies b
    ensures b.Valid() && b.buf == old(b.buf)
    ensures Unpack(len, pad, old(b.Contents()), st, rest) ==
            if ok then Opened(Message(kind, b.Contents()), st, rest) else Stop(exit)
  {
    hide Get32, Crc32.Checksum;
    hide Buffer.Contents, Buffer.Valid;
    ghost var plain := b.Contents();
    ok, exit, kind := false, BadPadding, 0;
    var n := b.Len();
    var covered := b.Peek(0, n - 4);
    var checksum := Crc32.ChecksumOf(covered);
    var done := b.Consume(pad);
    n := b.Len();
    if len != n {
      return;
    }
    hide Unpack;
    var field := b.Peek(len - 4, len);
    ghost var body := b.Contents()[..len-4];
    UnpackedParts(len, pad, plain, covered, field, body, st, rest);
    var stored := Get32(field);
    if checksum != stored {
      exit := BadChecksum;
      return;
    }
    done := b.ConsumeEnd(4);
    var first;
    done, first := b.Get(1);
    ok, kind := true, first[0];
  }

  /** Moves the first packet from the input to `incoming`, decrypting it. */
  method FetchPacket(input: Buffer, incoming: Buffer, receive: CipherContext, detect: seq<byte> -> Verdict, n: nat)
    returns (ok: bool)
    requires input.Valid() && incoming.Valid() && input != incoming && input.buf != incoming.buf
    requires |input.Contents()| >= 4 + n && n > 0 && n % 8 == 0
    modifies input, incoming, incoming.buf, receive
    ensures input.Valid() && input.buf == old(input.buf)
    ensures incoming.Valid() && (incoming.buf == old(incoming.buf) || fresh(incoming.buf))
    ensures ok == (old(receive.state).NoCipher? || detect(old(input.Contents())[4..4+n]) == Unremarkable)
    ensures ok ==> input.Contents() == old(input.Contents())[4+n..]
    ensures ok ==> incoming.Contents() == Decrypted(old(receive.state), old(input.Contents())[4..4+n])
    ensures ok ==> receive.state == AfterDecrypt(old(receive.state), old(input.Contents())[4..4+n])
  {
    hide Decrypted, AfterDecrypt;
    ghost var q := input.Contents();
    ok := input.Consume(4);
    incoming.Clear();
    var c;
    ok, c := input.Get(n);
    assert c == q[4..4+n] && input.Contents() == q[4+n..];
    var plain;
    ok, plain := PacketDecrypt(receive, detect, c);
    if ok {
      incoming.Append(plain);
      assert [] + plain == plain;
    }
  }

  /** Takes the first packet off the input, checks it, and leaves its payload in `incoming`. */
  method ReadPacket(input: Buffer, incoming: Buffer, receive: CipherContext, detect: seq<byte> -> Verdict)
    returns (r: Opened)
    requires input.Valid() && incoming.Valid() && input != incoming && input.buf != incoming.buf
    modifies input, incoming, incoming.buf, receive
    ensures input.Valid() && input.buf == old(input.buf)
    ensures incoming.Valid() && (incoming.buf == old(incoming.buf) || fresh(incoming.buf))
    ensures r == Open(detect, old(receive.state), old(input.Contents()))
    ensures r.Wait? ==> receive.state == old(receive.state) && input.Contents() == old(input.Contents())
    ensures r.Opened? ==>
      receive.state == r.st && input.Contents() == r.rest && incoming.Contents() == r.m.payload
  {
    hide Decrypted, AfterDecrypt, Get32, Unpack;
    var have := input.Len();
    if have < 12 {
      return Wait;
    }
    var len := Get32(input.buf[input.offset..input.end]);
    if len < 5 || len > MAX_PACKET {
      return Stop(BadLength);
    }
    if have < 4 + PaddedLen(len) {
      return Wait;
    }
    var ok := FetchPacket(input, incoming, receive, detect, PaddedLen(len));
    if !ok {
      return Stop(AttackDetected);
    }
    var exit, kind;
    exit, kind, ok := CheckPacket(incoming, len, 8 - len % 8, receive.state, input.Contents());
    if !ok {
      return Stop(exit);
    }
    r := Opened(Message(kind, incoming.buf[incoming.offset..incoming.end]), receive.state,
                input.buf[input.offset..input.end]);
  }

  class PacketLayer {
    const input: Buffer
    const output: Buffer
    const incoming: Buffer
    const outgoing: Buffer
    const send: CipherContext
    const receive: CipherContext
    const detect: seq<byte> -> Verdict
    /** Whether padding is random; packet_set_connection switches it off and nothing switches it on. */
    var random: bool

    ghost predicate Valid()
      reads this, input, output, incoming, outgoing
    {
      && input.Valid() && output.Valid() && incoming.Valid() && outgoing.Valid()
      && input != output && input != incoming && input != outgoing
      && output != incoming && output != outgoing && incoming != outgoing
      && input.buf != output.buf && input.buf != incoming.buf && input.buf != outgoing.buf
      && output.buf != incoming.buf && output.buf != outgoing.buf && incoming.buf != outgoing.buf
      && send != receive
    }

    /** A connection starts without encryption and with zero padding. */
    constructor (detect: seq<byte> -> Verdict)
      ensures Valid() && fresh(input) && fresh(output) && fresh(incoming) && fresh(outgoing)
      ensures fresh(input.buf) && fresh(output.buf) && fresh(incoming.buf) && fresh(outgoing.buf)
      ensures fresh(send) && fresh(receive) && send.state.NoCipher? && receive.state.NoCipher?
      ensures input.Contents() == [] && output.Contents() == [] && !random && this.detect == detect
    {
      this.detect := detect;
      input := new Buffer();
      output := new Buffer();
      incoming := new Buffer();
      outgoing := new Buffer();
      send := new CipherContext();
      receive := new CipherContext();
      random := false;
    }

    /** Starts a packet: eight bytes for padding, and the type. */
    method PacketStart(kind: byte)
      requires Valid()
      modifies outgoing, outgoing.buf
      ensures Valid() && (outgoing.buf == old(outgoing.buf) || fresh(outgoing.buf))
      ensures |outgoing.Contents()| == 9 && InPreparation(outgoing.Contents()) == Message(kind, [])
      ensures outgoing.Contents()[..8] == [0, 0, 0, 0, 0, 0, 0, 0]
    {
      outgoing.Clear();
      outgoing.Append([0, 0, 0, 0, 0, 0, 0, 0, kind]);
    }

    method PacketPutChar(c: byte)
      requires Valid() && |outgoing.Contents()| >= 9
      modifies outgoing, outgoing.buf
      ensures Valid() && (outgoing.buf == old(outgoing.buf) || fresh(outgoing.buf))
      ensures outgoing.Contents() == old(outgoing.Contents()) + [c]
    {
      BufferPutChar(outgoing, c);
    }

    method PacketPutString(s: seq<byte>)
      requires Valid() && |outgoing.Contents()| >= 9 && |s| < 0x1_0000_0000
      modifies outgoing, outgoing.buf
      ensures Valid() && (outgoing.buf == old(outgoing.buf) || fresh(outgoing.buf))
      ensures outgoing.Contents() == old(outgoing.Contents()) + PutString(s)
    {
      BufferPutString(outgoing, s);
    }

    /** Encrypts the finished packet onto the output, behind its length. */
    method Emit(len: nat)
      requires Valid() && WholeBlocks(outgoing.Contents()) && len < 0x1_0000_0000
      modifies outgoing, output, output.buf, send
      ensures Valid() && outgoing.buf == old(outgoing.buf) && outgoing.Contents() == []
      ensures output.buf == old(output.buf) || fresh(output.buf)
      ensures output.Contents()
           == old(output.Contents()) + (Put32(len) + Encrypted(old(send.state), old(outgoing.Contents())))
      ensures send.state == AfterEncrypt(old(send.state), old(outgoing.Contents()))
    {
      hide Encrypted, AfterEncrypt, Put32;
      ghost var sent := output.Contents();
      output.Append(Put32(len));
      var dest := PacketEncrypt(send, outgoing.buf[outgoing.offset..outgoing.end]);
      output.Append(dest);
      assert sent + Put32(len) + dest == sent + (Put32(len) + dest);
      outgoing.Clear();
    }

    /** Finishes the packet and appends it to the output. */
    method PacketSend(rand: seq<byte>)
      requires Valid() && |rand| >= 8
      requires 9 <= |outgoing.Contents()| && |outgoing.Contents()| - 4 < 0x1_0000_0000
      modifies outgoing, outgoing.buf, output, output.buf, send
      ensures Valid() && outgoing.Contents() == []
      ensures outgoing.buf == old(outgoing.buf) || fresh(outgoing.buf)
      ensures output.buf == old(output.buf) || fresh(output.buf)
      ensures var p := FrameInPreparation(old(outgoing.Contents()), random, rand);
        && output.Contents() == old(output.Contents()) + FrameBytes(old(send.state), p)
        && send.state == After(old(send.state), p)
    {
      hide Encrypted, AfterEncrypt, Plain, Put32, Pad, WholeBlocks;
      ghost var p := FrameInPreparation(outgoing.Contents(), random, rand);
      PlainBlocks(p);
      var n := outgoing.Len();
      Seal(outgoing, random, rand);
      Emit(n - 4);
    }

    method PacketProcessIncoming(bytes: seq<byte>)
      requires Valid()
      modifies input, input.buf
      ensures Valid() && (input.buf == old(input.buf) || fresh(input.buf))
      ensures input.Contents() == old(input.Contents()) + bytes
    {
      input.Append(bytes);
    }

    /** Takes packets off the input until one concerns the caller, whose payload is then in `incoming`. */
    method PacketReadPoll() returns (r: Polled)
      requires Valid()
      modifies input, incoming, incoming.buf, receive
      ensures Valid() && input.buf == old(input.buf) && (incoming.buf == old(incoming.buf) || fresh(incoming.buf))
      ensures r == ReadPoll(detect, old(receive.state), old(input.Contents()))
      ensures !r.Ended? ==> receive.state == r.st && input.Contents() == r.input
      ensures r.Received? ==> incoming.Contents() == r.m.payload
    {
      hide Open;
      while true
        invariant Valid() && input.buf == old(input.buf) && (incoming.buf == old(incoming.buf) || fresh(incoming.buf))
        invariant ReadPoll(detect, receive.state, input.Contents())
            == ReadPoll(detect, old(receive.state), old(input.Contents()))
        decreases input.end - input.offset
      {
        var o := ReadPacket(input, incoming, receive, detect);
        if o.Wait? {
          return Nothing(receive.state, input.buf[input.offset..input.end]);
        }
        if o.Stop? {
          return Ended(o.exit);
        }
        if o.m.kind == SSH_MSG_DISCONNECT {
          var msg := BufferGetString(incoming);
          return Ended(if msg.Fatal? then BadString else Disconnected);
        }
        if o.m.kind == SSH_MSG_IGNORE {
          continue;
        }
        if o.m.kind == SSH_MSG_DEBUG {
          var msg := BufferGetString(incoming);
          if msg.Fatal? {
            return Ended(BadString);
          }
          continue;
        }
        return Received(o.m, receive.state, input.buf[input.offset..input.end]);
      }
    }
  }
}
