/** Where a stream stops: a packet that is too long, refused by the detector, damaged, malformed or a disconnect ends
    the connection when the receiver comes to it, and not before. */
module PacketStops {
  import opened Wire
  import opened Bufaux
  import opened Cipher
  import Crc32
  import opened Deattack
  import opened Packet

  /** A receiver that comes to the bytes `x` waits for the first `n` of them and then exits. */
  ghost predicate StopsWith(detect: seq<byte> -> Verdict, st: CipherState, x: seq<byte>, n: nat, exit: Exit) {
    forall m :: 0 <= m <= |x| ==>
      ReadPoll(detect, st, x[..m]) == if m < n then Nothing(st, x[..m]) else Ended(exit)
  }

  /** What a poll makes of a packet within the length limit that the detector lets pass, by the number of its type: 1 is
      SSH_MSG_DISCONNECT, 32 SSH_MSG_IGNORE, 36 SSH_MSG_DEBUG. */
  lemma PollByKind(detect: seq<byte> -> Verdict, st: CipherState, p: Frame, rest: seq<byte>)
    requires Keyed(st) && Padded(p) && |p.m.payload| + 5 <= 0x4_0000 && Passes(detect, st, p)
    ensures var r := ReadPoll(detect, st, FrameBytes(st, p) + rest);
      var later := ReadPoll(detect, After(st, p), rest);
      match p.m.kind as nat
      case 1 => r == Ended(if GetString(p.m.payload).Fatal? then BadString else Disconnected)
      case 32 => r == later
      case 36 => r == if GetString(p.m.payload).Fatal? then Ended(BadString) else later
      case _ => r == Received(p.m, After(st, p), rest)
  {
    hide Padded, Keyed, Passes, After, Open, FrameBytes, GetString;
    OpenWhole(detect, st, p, rest);
  }

  // ---------------------------------------------------------------- what stops a receiver

  /** A length field out of range is noticed as soon as twelve bytes are there. */
  lemma BadLengthStops(detect: seq<byte> -> Verdict, st: CipherState, x: seq<byte>)
    requires |x| >= 12 && (Get32(x) < 5 || Get32(x) > MAX_PACKET)
    ensures StopsWith(detect, st, x, 12, BadLength)
  {
    forall m | 0 <= m <= |x|
      ensures ReadPoll(detect, st, x[..m]) == if m < 12 then Nothing(st, x[..m]) else Ended(BadLength)
    {
    }
  }

  lemma PartOfFrame(detect: seq<byte> -> Verdict, st: CipherState, p: Frame, tail: seq<byte>, m: nat)
    requires Keyed(st) && Padded(p) && m <= |FrameBytes(st, p) + tail|
    ensures var f := FrameBytes(st, p);
      Open(detect, st, (f + tail)[..m])
      == if LengthField(p.m) > MAX_PACKET then (if m < 12 then Wait else Stop(BadLength))
         else if m < |f| then Wait
         else if !Passes(detect, st, p) then Stop(AttackDetected)
         else Opened(p.m, After(st, p), (f + tail)[|f|..m])
  {
    hide Padded, Keyed, Passes, After, Open, Unpack;
    var f := FrameBytes(st, p);
    var q := (f + tail)[..m];
    FrameFields(st, p, tail);
    if m >= |f| {
      assert q == f + (f + tail)[|f|..m];
      OpenWhole(detect, st, p, (f + tail)[|f|..m]);
    } else if LengthField(p.m) <= MAX_PACKET {
      assert q == f[..m];
      OpenPart(detect, st, p, q);
    } else {
      HeaderDecides(detect, st, f + tail, m);
    }
  }

  lemma HeaderDecides(detect: seq<byte> -> Verdict, st: CipherState, x: seq<byte>, m: nat)
    requires 12 <= |x| && m <= |x| && Get32(x) > MAX_PACKET
    ensures Open(detect, st, x[..m]) == if m < 12 then Wait else Stop(BadLength)
  {
  }

  /** How the program ends on a packet, and when it notices. A disconnect is read as a string before it is logged. */
  function ExitOn(detect: seq<byte> -> Verdict, st: CipherState, p: Frame): Exit
    requires Padded(p)
  {
    if LengthField(p.m) > MAX_PACKET then BadLength
    else if !Passes(detect, st, p) then AttackDetected
    else if GetString(p.m.payload).Fatal? then BadString
    else Disconnected
  }

  function NoticedAfter(st: CipherState, p: Frame): nat
    requires Padded(p)
  {
    if LengthField(p.m) > MAX_PACKET then 12 else |FrameBytes(st, p)|
  }

  /** A packet that is too long, that the detector refuses, a disconnect, and a debug packet that holds no string stop
      the receiver, whatever follows. */
  lemma FrameStops(detect: seq<byte> -> Verdict, st: CipherState, p: Frame, tail: seq<byte>)
    requires Keyed(st) && Padded(p)
    requires LengthField(p.m) > MAX_PACKET || !Passes(detect, st, p) || !Harmless(p.m)
    ensures StopsWith(detect, st, FrameBytes(st, p) + tail, NoticedAfter(st, p), ExitOn(detect, st, p))
  {
    hide Padded, Keyed, Passes, After, Open, FrameBytes;
    var x := FrameBytes(st, p) + tail;
    FrameFields(st, p, tail);
    forall m | 0 <= m <= |x|
      ensures ReadPoll(detect, st, x[..m])
           == if m < NoticedAfter(st, p) then Nothing(st, x[..m]) else Ended(ExitOn(detect, st, p))
    {
      PartOfFrame(detect, st, p, tail, m);
    }
  }

  /** A packet whose check bytes do not fit what they cover. */
  ghost predicate Damaged(len: nat, plain: seq<byte>) {
    && 5 <= len <= MAX_PACKET && |plain| == PaddedLen(len)
    && Crc32.Checksum(plain[..|plain|-4]) != Get32(plain[|plain|-4..])
  }

  lemma DamagedUnpacked(len: nat, plain: seq<byte>, st: CipherState, rest: seq<byte>)
    requires Damaged(len, plain)
    ensures Unpack(len, 8 - len % 8, plain, st, rest) == Stop(BadChecksum)
  {
    hide Crc32.Checksum, Get32;
    assert len == 8 * (len / 8) + len % 8 && (len + 8) / 8 == len / 8 + 1;
    assert plain[8 - len % 8..][len-4..] == plain[|plain|-4..];
  }

  /** Opening the start of a damaged packet and what follows it. */
  lemma PartOfDamaged(detect: seq<byte> -> Verdict, st: CipherState, len: nat, plain: seq<byte>, tail: seq<byte>,
                      m: nat)
    requires Keyed(st) && Damaged(len, plain) && WholeBlocks(plain)
    requires st.NoCipher? || detect(Encrypted(st, plain)) == Unremarkable
    requires m <= 4 + |plain| + |tail|
    ensures Open(detect, st, (Put32(len) + Encrypted(st, plain) + tail)[..m])
         == if m < 4 + |plain| then Wait else Stop(BadChecksum)
  {
    hide Get32, Put32, Encrypted, Decrypted, AfterDecrypt, Crc32.Checksum, Keyed, Unpack, PaddedLen;
    var c := Encrypted(st, plain);
    var x := Put32(len) + c + tail;
    var q := x[..m];
    assert PaddedLen(len) >= 8 by { PaddedLonger(len); }
    if m >= 4 {
      GetPut32(len, q[4..]);
      assert q == Put32(len) + q[4..];
    }
    if m >= 4 + |plain| {
      MiddlePart(Put32(len), c, tail, m);
      PacketRoundTrip(st, plain);
      DamagedUnpacked(len, plain, AfterDecrypt(st, c), q[4+|plain|..]);
    }
  }

  lemma MiddlePart(a: seq<byte>, b: seq<byte>, c: seq<byte>, m: nat)
    requires |a| + |b| <= m <= |a| + |b| + |c|
    ensures (a + b + c)[..m][|a|..|a|+|b|] == b
  {
    assert (a + b + c)[..m] == a + b + c[..m-|a|-|b|];
  }

  lemma PaddedLonger(len: nat)
    requires len >= 5
    ensures PaddedLen(len) >= 8
  {
  }

  /** A damaged packet stops the receiver, whatever follows. */
  lemma DamagedStops(detect: seq<byte> -> Verdict, st: CipherState, len: nat, plain: seq<byte>, tail: seq<byte>)
    requires Keyed(st) && Damaged(len, plain) && WholeBlocks(plain)
    requires st.NoCipher? || detect(Encrypted(st, plain)) == Unremarkable
    ensures StopsWith(detect, st, Put32(len) + Encrypted(st, plain) + tail, 4 + |plain|, BadChecksum)
  {
    hide Put32, Encrypted, Open, Keyed, Crc32.Checksum, Get32;
    var x := Put32(len) + Encrypted(st, plain) + tail;
    forall m | 0 <= m <= |x|
      ensures ReadPoll(detect, st, x[..m]) == if m < 4 + |plain| then Nothing(st, x[..m]) else Ended(BadChecksum)
    {
      PartOfDamaged(detect, st, len, plain, tail, m);
    }
  }

  // ---------------------------------------------------------------- a poll

  /** The result of a poll of the start `q` of what the packets `ps` make and of what comes after them, which stops a
      receiver after `n` bytes. */
  ghost predicate PollStopsOk(st: CipherState, ps: seq<Frame>, q: seq<byte>, n: nat, exit: Exit, k: nat, r: Polled)
    requires AllPadded(ps)
  {
    k <= |ps| &&
    match r
    case Ended(why) => why == exit && Visible(ps) == [] && |q| >= |Stream(st, ps)| + n
    case Received(m, st', q') => TookOff(st, ps, q, k, st', q') && Visible(ps[..k]) == [m]
    case Nothing(st', q') =>
      && TookOff(st, ps, q, k, st', q') && Visible(ps[..k]) == []
      && |q'| < if k == |ps| then n else |FrameBytes(st', ps[k])|
  }

  lemma SkippedStopPoll(st: CipherState, ps: seq<Frame>, rest: seq<byte>, n: nat, exit: Exit, j: nat, r: Polled)
    requires AllPadded(ps) && ps != [] && Skipped(ps[0].m)
    requires PollStopsOk(After(st, ps[0]), ps[1..], rest, n, exit, j, r)
    ensures PollStopsOk(st, ps, FrameBytes(st, ps[0]) + rest, n, exit, j + 1, r)
  {
    hide FrameBytes, After, Padded, Skipped, TookOff;
    if !r.Ended? {
      TookOffOne(st, ps, rest, j, r.st, r.input);
      if j < |ps[1..]| {
        assert ps[1..][j] == ps[j + 1];
      }
    }
  }

  lemma FirstOfStream(st: CipherState, ps: seq<Frame>, x: seq<byte>, q: seq<byte>)
    requires AllPadded(ps) && ps != [] && q <= Stream(st, ps) + x
    ensures |q| < |FrameBytes(st, ps[0])| ==> q < FrameBytes(st, ps[0])
    ensures |q| >= |FrameBytes(st, ps[0])| ==>
      && q == FrameBytes(st, ps[0]) + q[|FrameBytes(st, ps[0])|..]
      && q[|FrameBytes(st, ps[0])|..] <= Stream(After(st, ps[0]), ps[1..]) + x
  {
    hide FrameBytes, After, Padded;
    var f, more := FrameBytes(st, ps[0]), Stream(After(st, ps[0]), ps[1..]) + x;
    assert Stream(st, ps) + x == f + more;
  }

  lemma {:induction false} PollStops(detect: seq<byte> -> Verdict, st: CipherState, ps: seq<Frame>, x: seq<byte>,
                                     n: nat, exit: Exit, q: seq<byte>) returns (k: nat)
    requires Keyed(st) && Sendable(detect, st, ps) && q <= Stream(st, ps) + x
    requires StopsWith(detect, StateAfter(st, ps), x, n, exit)
    ensures PollStopsOk(st, ps, q, n, exit, k, ReadPoll(detect, st, q))
    decreases |ps|
  {
    hide FrameBytes, After, Padded, Keyed, Open, Passes, TookOff, StopsWith;
    TookOffNone(st, ps, q);
    if ps == [] {
      StopsAt(detect, st, x, n, exit, q);
      return 0;
    }
    var whole := FrameBytes(st, ps[0]);
    FirstOfStream(st, ps, x, q);
    if |q| < |whole| {
      OpenPart(detect, st, ps[0], q);
      return 0;
    }
    var rest := q[|whole|..];
    OpenWhole(detect, st, ps[0], rest);
    KeyedAfter(st, ps[0]);
    if Skipped(ps[0].m) {
      var j := PollStops(detect, After(st, ps[0]), ps[1..], x, n, exit, rest);
      k := j + 1;
      SkippedStopPoll(st, ps, rest, n, exit, j, ReadPoll(detect, After(st, ps[0]), rest));
      assert ReadPoll(detect, st, q) == ReadPoll(detect, After(st, ps[0]), rest);
    } else {
      k := 1;
      TookOffNone(After(st, ps[0]), ps[1..], rest);
      TookOffOne(st, ps, rest, 0, After(st, ps[0]), rest);
    }
  }

  lemma StopsAt(detect: seq<byte> -> Verdict, st: CipherState, x: seq<byte>, n: nat, exit: Exit, q: seq<byte>)
    requires StopsWith(detect, st, x, n, exit) && q <= Stream(st, []) + x
    ensures ReadPoll(detect, st, q) == if |q| < n then Nothing(st, q) else Ended(exit)
  {
    hide ReadPoll;
    assert Stream(st, []) + x == x && q == x[..|q|];
  }

  // ---------------------------------------------------------------- a receiver

  ghost predicate StoppingOk(st: CipherState, ps: seq<Frame>, arrived: seq<byte>, n: nat, exit: Exit, k: nat, r: Reader)
    requires AllPadded(ps)
  {
    match r
    case Gone(why, got) => why == exit && got == Visible(ps) && |arrived| >= |Stream(st, ps)| + n
    case Reading(st', input, got, idle) =>
      && k <= |ps| && TookOff(st, ps, arrived, k, st', input) && got == Visible(ps[..k])
      && (idle ==> |input| < if k == |ps| then n else |FrameBytes(st', ps[k])|)
  }

  lemma MoreArrives(st: CipherState, ps: seq<Frame>, arrived: seq<byte>, n: nat, exit: Exit, k: nat, r: Reader,
                    bytes: seq<byte>, detect: seq<byte> -> Verdict)
    requires AllPadded(ps) && StoppingOk(st, ps, arrived, n, exit, k, r)
    ensures StoppingOk(st, ps, arrived + bytes, n, exit, k, ReaderStep(detect, r, Arrive(bytes)))
  {
    hide Stream, StateAfter, Visible, Padded;
    if r.Reading? {
      assert arrived + bytes == Stream(st, ps[..k]) + (r.input + bytes);
    }
  }

  /** What is left of the input after some packets is the start of what the others and the rest make. */
  lemma RestOfStream(st: CipherState, ps: seq<Frame>, x: seq<byte>, arrived: seq<byte>, k: nat, st1: CipherState,
                     q1: seq<byte>)
    requires AllPadded(ps) && TookOff(st, ps, arrived, k, st1, q1) && arrived <= Stream(st, ps) + x
    ensures k <= |ps| && q1 <= Stream(st1, ps[k..]) + x && StateAfter(st1, ps[k..]) == StateAfter(st, ps)
    ensures |Stream(st, ps)| - |arrived| == |Stream(st1, ps[k..])| - |q1|
  {
    hide Stream, StateAfter, Padded;
    var a, b := ps[..k], ps[k..];
    assert ps == a + b;
    StreamAppend(st, a, b);
    StateAppend(st, a, b);
    var s, t := Stream(st, a), Stream(st1, b);
    assert (s + t) + x == s + (t + x);
    AfterPrefix(s, q1, t + x);
  }

  lemma AfterPrefix(s: seq<byte>, a: seq<byte>, b: seq<byte>)
    requires s + a <= s + b
    ensures a <= b
  {
    forall i | 0 <= i < |a|
      ensures i < |b| && a[i] == b[i]
    {
      assert (s + a)[|s| + i] == (s + b)[|s| + i];
    }
  }

  lemma ReaderPolls(detect: seq<byte> -> Verdict, st: CipherState, ps: seq<Frame>, x: seq<byte>, n: nat, exit: Exit,
                    arrived: seq<byte>, k: nat, r: Reader) returns (k': nat)
    requires Keyed(st) && Sendable(detect, st, ps) && arrived <= Stream(st, ps) + x
    requires StopsWith(detect, StateAfter(st, ps), x, n, exit) && StoppingOk(st, ps, arrived, n, exit, k, r)
    ensures StoppingOk(st, ps, arrived, n, exit, k', ReaderStep(detect, r, Poll))
  {
    hide Stream, StateAfter, Visible, Padded, Keyed, Sendable, FrameBytes, ReadPoll, StopsWith;
    k' := k;
    if r.Reading? {
      assert r.st == StateAfter(st, ps[..k]);
      SendableSuffix(detect, st, ps, k);
      RestOfStream(st, ps, x, arrived, k, r.st, r.input);
      hide TookOff;
      var j := PollStops(detect, r.st, ps[k..], x, n, exit, r.input);
      var p := ReadPoll(detect, r.st, r.input);
      if p.Ended? {
        assert ps == ps[..k] + ps[k..];
        VisibleAppend(ps[..k], ps[k..]);
        assert Visible(ps[..k]) + [] == Visible(ps[..k]);
      } else {
        TookOffMore(st, ps, arrived, k, r.st, r.input, j, p.st, p.input);
        if j < |ps[k..]| {
          assert ps[k..][j] == ps[k + j];
        }
        k' := k + j;
      }
    }
  }

  lemma {:induction false} StoppingRun(detect: seq<byte> -> Verdict, st: CipherState, ps: seq<Frame>, x: seq<byte>,
                                       n: nat, exit: Exit, events: seq<Event>) returns (k: nat)
    requires Keyed(st) && Sendable(detect, st, ps) && Arrived(events) <= Stream(st, ps) + x
    requires StopsWith(detect, StateAfter(st, ps), x, n, exit)
    ensures StoppingOk(st, ps, Arrived(events), n, exit, k, Run(detect, st, events))
    decreases |events|
  {
    hide Stream, StateAfter, Padded, Keyed, Sendable, FrameBytes, ReadPoll, Passes, StopsWith;
    if events == [] {
      NothingYet(st, ps);
      return 0;
    }
    var before, e := events[..|events|-1], events[|events|-1];
    k := StoppingRun(detect, st, ps, x, n, exit, before);
    var r := Run(detect, st, before);
    hide StoppingOk;
    match e {
      case Arrive(bytes) => MoreArrives(st, ps, Arrived(before), n, exit, k, r, bytes, detect);
      case Poll =>
        assert Arrived(events) == Arrived(before) + [];
        assert Arrived(before) + [] == Arrived(before);
        k := ReaderPolls(detect, st, ps, x, n, exit, Arrived(before), k, r);
    }
  }

  /** Where a stream stops: after any packets that may be sent, what stops a receiver stops it. However the bytes are
      cut up and whenever it polls, it reads on until that much has arrived, handing out the first messages in order;
      when it exits, it is with that exit and every message before has been handed out; and once that much has arrived,
      no poll finds nothing. */
  lemma StreamStops(detect: seq<byte> -> Verdict, st: CipherState, ps: seq<Frame>, x: seq<byte>, n: nat, exit: Exit,
                    events: seq<Event>)
    requires Keyed(st) && Sendable(detect, st, ps) && Arrived(events) <= Stream(st, ps) + x
    requires StopsWith(detect, StateAfter(st, ps), x, n, exit)
    ensures var r := Run(detect, st, events); var whole := |Stream(st, ps)| + n;
      && (|Arrived(events)| < whole ==> r.Reading?)
      && (r.Reading? ==> r.got <= Visible(ps) && (|Arrived(events)| >= whole ==> !r.idle))
      && (r.Gone? ==> r == Gone(exit, Visible(ps)))
  {
    hide Run, Arrived, Padded, Keyed, Sendable, FrameBytes, Visible, Stream, StateAfter, StopsWith;
    var k := StoppingRun(detect, st, ps, x, n, exit, events);
    var r := Run(detect, st, events);
    if r.Reading? {
      RestOfStream(st, ps, x, Arrived(events), k, r.st, r.input);
      assert ps == ps[..k] + ps[k..];
      VisibleAppend(ps[..k], ps[k..]);
      if k < |ps| {
        FirstFrame(r.st, ps[k..]);
      } else {
        NoFrames(r.st, ps[k..]);
      }
    }
  }

  function Polls(m: nat): seq<Event> {
    seq(m, _ => Poll)
  }

  lemma {:induction false} PollsCount(detect: seq<byte> -> Verdict, st: CipherState, ps: seq<Frame>, x: seq<byte>,
                                      n: nat, exit: Exit, events: seq<Event>, m: nat)
    requires Keyed(st) && Sendable(detect, st, ps) && Arrived(events) <= Stream(st, ps) + x
    requires StopsWith(detect, StateAfter(st, ps), x, n, exit) && |Arrived(events)| >= |Stream(st, ps)| + n
    ensures Arrived(events + Polls(m)) == Arrived(events)
    ensures var r := Run(detect, st, events + Polls(m)); r.Reading? ==> |r.got| >= m
  {
    hide ReadPoll, Padded, Keyed, Sendable, FrameBytes, Visible, Stream, StateAfter, StopsWith;
    if m == 0 {
      assert events + Polls(0) == events;
    } else {
      PollsCount(detect, st, ps, x, n, exit, events, m - 1);
      var all := events + Polls(m);
      assert all[..|all|-1] == events + Polls(m - 1);
      assert Arrived(events) + [] == Arrived(events);
      StreamStops(detect, st, ps, x, n, exit, all);
    }
  }

  /** Once it has arrived, as many polls as there are messages before it, and one more, come to it. */
  lemma EnoughPolls(detect: seq<byte> -> Verdict, st: CipherState, ps: seq<Frame>, x: seq<byte>, n: nat, exit: Exit,
                    events: seq<Event>, m: nat)
    requires Keyed(st) && Sendable(detect, st, ps) && Arrived(events) <= Stream(st, ps) + x
    requires StopsWith(detect, StateAfter(st, ps), x, n, exit) && |Arrived(events)| >= |Stream(st, ps)| + n
    requires m > |Visible(ps)|
    ensures Run(detect, st, events + Polls(m)) == Gone(exit, Visible(ps))
  {
    hide Run, Arrived, Padded, Keyed, Sendable, FrameBytes, Visible, Stream, StateAfter, StopsWith;
    PollsCount(detect, st, ps, x, n, exit, events, m);
    StreamStops(detect, st, ps, x, n, exit, events + Polls(m));
  }

  /** The first packet of a stream that may not be sent ends it: a receiver reads on until it notices, and exits as the
      program does on that packet, with every message before it handed out. */
  lemma BadFrameEndsStream(detect: seq<byte> -> Verdict, st: CipherState, ps: seq<Frame>, p: Frame, tail: seq<byte>,
                           events: seq<Event>, m: nat)
    requires Keyed(st) && Sendable(detect, st, ps) && Padded(p) && m > |Visible(ps)|
    requires LengthField(p.m) > MAX_PACKET || !Passes(detect, StateAfter(st, ps), p) || !Harmless(p.m)
    requires Arrived(events) <= Stream(st, ps) + (FrameBytes(StateAfter(st, ps), p) + tail)
    ensures var st' := StateAfter(st, ps);
      var r := Run(detect, st, events);
      if |Arrived(events)| < |Stream(st, ps)| + NoticedAfter(st', p) then
        r.Reading? && r.got <= Visible(ps)
      else
        Run(detect, st, events + Polls(m)) == Gone(ExitOn(detect, st', p), Visible(ps))
  {
    hide Run, Arrived, Padded, Keyed, Sendable, FrameBytes, Visible, Stream, StateAfter, StopsWith, Passes, Harmless;
    var st' := StateAfter(st, ps);
    SendableSuffix(detect, st, ps, |ps|);
    assert ps[..|ps|] == ps;
    FrameStops(detect, st', p, tail);
    var x, n, exit := FrameBytes(st', p) + tail, NoticedAfter(st', p), ExitOn(detect, st', p);
    StreamStops(detect, st, ps, x, n, exit, events);
    if |Arrived(events)| >= |Stream(st, ps)| + n {
      EnoughPolls(detect, st, ps, x, n, exit, events, m);
    }
  }
}
