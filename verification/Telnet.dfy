/** The telnet escaping of zmio.c: a byte 255 is doubled and a carriage return is followed by a zero (RFC 854, "TELNET
    Command Structure" and "The NVT Printer and Keyboard"). */
module Telnet {
  import opened Wire

  const IAC: byte := 0xff
  const CR: byte := 0x0d

  /** What one byte is sent as. */
  function EscapeByte(b: byte): seq<byte> {
    if b == IAC then [IAC, IAC] else if b == CR then [CR, 0] else [b]
  }

  function Escape(s: seq<byte>): seq<byte> {
    if s == [] then [] else EscapeByte(s[0]) + Escape(s[1..])
  }

  predicate IsPair(a: byte, b: byte) {
    (a == IAC && b == IAC) || (a == CR && b == 0)
  }

  /** Pairs taken from the front, each reduced to its first byte. */
  function Unescape(s: seq<byte>): seq<byte> {
    if |s| <= 1 then s
    else if IsPair(s[0], s[1]) then [s[0]] + Unescape(s[2..])
    else [s[0]] + Unescape(s[1..])
  }

  // ---------------------------------------------------------------- round trip

  lemma UnescapeOne(b: byte, rest: seq<byte>)
    ensures Unescape(EscapeByte(b) + rest) == [b] + Unescape(rest)
  {
    var s := EscapeByte(b) + rest;
    assert s[|EscapeByte(b)|..] == rest;
  }

  /** Whole escapes in front are undone whatever follows. */
  lemma {:induction false} UnescapeAfterWhole(p: seq<byte>, t: seq<byte>)
    ensures Unescape(Escape(p) + t) == p + Unescape(t)
    decreases |p|
  {
    hide Unescape, EscapeByte;
    if p == [] {
      assert Escape(p) + t == t;
    } else {
      UnescapeAfterWhole(p[1..], t);
      UnescapeOne(p[0], Escape(p[1..]) + t);
      assert Escape(p) + t == EscapeByte(p[0]) + (Escape(p[1..]) + t);
      assert p + Unescape(t) == [p[0]] + (p[1..] + Unescape(t));
    }
  }

  lemma RoundTrip(s: seq<byte>)
    ensures Unescape(Escape(s)) == s
  {
    UnescapeAfterWhole(s, []);
    assert Escape(s) + [] == Escape(s) && s + [] == s;
  }

  // ---------------------------------------------------------------- what goes out

  /** Bytes that need no escape go out as they are, and come in as they are. */
  lemma {:induction false} PlainBytesPass(s: seq<byte>)
    requires forall i :: 0 <= i < |s| ==> s[i] != IAC && s[i] != CR
    ensures Escape(s) == s && Unescape(s) == s
    decreases |s|
  {
    if s != [] {
      PlainBytesPass(s[1..]);
    }
  }

  /** What comes in loses nothing but the second 255 of two and the zero after a carriage return. */
  lemma {:induction false} OtherPairsPass(s: seq<byte>)
    requires forall i :: 0 <= i < |s| - 1 ==> !(s[i] == 255 && s[i+1] == 255) && !(s[i] == 13 && s[i+1] == 0)
    ensures Unescape(s) == s
    decreases |s|
  {
    if |s| > 1 {
      assert !IsPair(s[0], s[1]);
      OtherPairsPass(s[1..]);
    }
  }

  /** Every carriage return that goes out is followed by a zero. */
  lemma {:induction false} ReturnsAreFollowed(s: seq<byte>, i: nat)
    requires i < |Escape(s)| && Escape(s)[i] == CR
    ensures i + 1 < |Escape(s)| && Escape(s)[i + 1] == 0
    decreases |s|
  {
    var e := EscapeByte(s[0]);
    if i >= |e| {
      ReturnsAreFollowed(s[1..], i - |e|);
    }
  }

  /** The number of bytes 255 at the front. */
  function LeadingIacs(s: seq<byte>): (n: nat)
    ensures n <= |s|
  {
    if s == [] || s[0] != IAC then 0 else 1 + LeadingIacs(s[1..])
  }

  lemma {:induction false} LeadingPairs(s: seq<byte>)
    ensures LeadingIacs(Escape(s)) % 2 == 0
    decreases |s|
  {
    if s != [] && s[0] == IAC {
      LeadingPairs(s[1..]);
      assert Escape(s)[1..][1..] == Escape(s[1..]);
      assert LeadingIacs(Escape(s)[1..]) == 1 + LeadingIacs(Escape(s)[1..][1..]);
    }
  }

  /** Bytes 255 go out in runs of even length: no one of them is a command to the other side. */
  lemma {:induction false} RunsAreEven(s: seq<byte>, i: nat)
    requires i <= |Escape(s)| && (i == 0 || Escape(s)[i - 1] != IAC)
    ensures LeadingIacs(Escape(s)[i..]) % 2 == 0
    decreases |s|
  {
    if i == 0 {
      assert Escape(s)[0..] == Escape(s);
      LeadingPairs(s);
    } else {
      var e := EscapeByte(s[0]);
      if i >= |e| {
        assert Escape(s)[i..] == Escape(s[1..])[i - |e|..];
        if i == |e| {
          assert Escape(s[1..])[0..] == Escape(s[1..]);
          LeadingPairs(s[1..]);
        } else {
          RunsAreEven(s[1..], i - |e|);
        }
      } else {
        assert Escape(s)[i..][0] == e[1] == 0;
      }
    }
  }

  /** The escaped form is longer by one byte for every byte 255 and every carriage return. */
  lemma {:induction false} EscapedLength(s: seq<byte>)
    ensures |Escape(s)| == |s| + multiset(s)[IAC] + multiset(s)[CR]
    decreases |s|
  {
    if s != [] {
      EscapedLength(s[1..]);
      assert s == [s[0]] + s[1..];
    }
  }

  // ---------------------------------------------------------------- cuts

  /** The second byte of an escape, read apart from the first, is taken for data. */
  lemma {:induction false} StraySecond(y: byte, q: seq<byte>)
    requires y == IAC || y == 0
    ensures Unescape([y] + Escape(q)) == [y] + q
    decreases |q|
  {
    var s := [y] + Escape(q);
    assert s[1..] == Escape(q);
    if q != [] {
      RoundTrip(q);
      if y == IAC && q[0] == IAC {
        StraySecond(IAC, q[1..]);
        assert s[2..] == [IAC] + Escape(q[1..]);
        assert q == [IAC] + q[1..];
      }
    }
  }

  lemma {:induction false} EscapeAppend(p: seq<byte>, q: seq<byte>)
    ensures Escape(p + q) == Escape(p) + Escape(q)
    decreases |p|
  {
    hide EscapeByte;
    if p == [] {
      assert p + q == q;
    } else {
      EscapeAppend(p[1..], q);
      assert (p + q)[1..] == p[1..] + q && (p + q)[0] == p[0];
      assert EscapeByte(p[0]) + (Escape(p[1..]) + Escape(q)) == (EscapeByte(p[0]) + Escape(p[1..])) + Escape(q);
    }
  }

  /** The bytes of a stream come in two reads: either whole escapes come in the first, or one is cut in two. */
  ghost predicate WholeEscapes(s: seq<byte>, a: seq<byte>) {
    exists k :: 0 <= k <= |s| && a == Escape(s[..k])
  }

  lemma NothingIsWhole(s: seq<byte>)
    ensures WholeEscapes(s, [])
  {
    assert Escape(s[..0]) == [];
  }

  lemma OneMoreIsWhole(s: seq<byte>, a: seq<byte>)
    requires s != [] && WholeEscapes(s[1..], a)
    ensures WholeEscapes(s, EscapeByte(s[0]) + a)
  {
    var j :| 0 <= j <= |s[1..]| && a == Escape(s[1..][..j]);
    assert s[..j+1][1..] == s[1..][..j];
  }

  lemma CutInTwo(a: seq<byte>, b: seq<byte>, e: seq<byte>, rest: seq<byte>)
    requires a + b == e + rest && |a| == 1 && |e| == 2
    ensures a == [e[0]] && b == [e[1]] + rest
  {
    assert a[0] == (a + b)[0] && (e + rest)[0] == e[0];
    assert b == (a + b)[1..];
    assert (e + rest)[1..] == [e[1]] + rest;
  }

  lemma CutInFirst(s: seq<byte>, a: seq<byte>, b: seq<byte>)
    requires s != [] && a + b == Escape(s) && 0 < |a| < |EscapeByte(s[0])|
    ensures |EscapeByte(s[0])| == 2 && a == Escape(s[..0]) + [EscapeByte(s[0])[0]]
    ensures b == [EscapeByte(s[0])[1]] + Escape(s[1..])
  {
    hide EscapeByte;
    EscapesAreShort(s[0]);
    CutInTwo(a, b, EscapeByte(s[0]), Escape(s[1..]));
    assert Escape(s[..0]) + a == a;
  }

  lemma EscapesAreShort(b: byte)
    ensures 1 <= |EscapeByte(b)| <= 2
  {
  }

  lemma CutLater(s: seq<byte>, a: seq<byte>, b: seq<byte>)
    requires s != [] && a + b == Escape(s) && |a| >= |EscapeByte(s[0])|
    ensures var n := |EscapeByte(s[0])|; a[n..] + b == Escape(s[1..]) && a == EscapeByte(s[0]) + a[n..]
  {
    hide EscapeByte;
    var n := |EscapeByte(s[0])|;
    assert a[n..] + b == (a + b)[n..];
    assert a == (a + b)[..n] + a[n..];
  }

  lemma {:induction false} CutInside(s: seq<byte>, a: seq<byte>, b: seq<byte>) returns (k: nat)
    requires a + b == Escape(s) && !WholeEscapes(s, a)
    ensures k < |s| && |EscapeByte(s[k])| == 2
    ensures a == Escape(s[..k]) + [EscapeByte(s[k])[0]]
    ensures b == [EscapeByte(s[k])[1]] + Escape(s[k+1..])
    decreases |s|
  {
    hide WholeEscapes, EscapeByte;
    NothingIsWhole(s);
    var n := |EscapeByte(s[0])|;
    if |a| < n {
      CutInFirst(s, a, b);
      k := 0;
    } else {
      CutLater(s, a, b);
      if WholeEscapes(s[1..], a[n..]) {
        OneMoreIsWhole(s, a[n..]);
      }
      var j := CutInside(s[1..], a[n..], b);
      k := j + 1;
      assert s[..k][1..] == s[1..][..j] && s[..k][0] == s[0];
      assert s[k+1..] == s[1..][j+1..];
      assert EscapeByte(s[0]) + (Escape(s[1..][..j]) + [EscapeByte(s[k])[0]])
          == (EscapeByte(s[0]) + Escape(s[1..][..j])) + [EscapeByte(s[k])[0]];
    }
  }

  /** Two reads give the original exactly when the cut does not fall inside an escape. */
  lemma TwoReads(s: seq<byte>, a: seq<byte>, b: seq<byte>)
    requires a + b == Escape(s)
    ensures Unescape(a) + Unescape(b) == s <==> WholeEscapes(s, a)
  {
    hide Escape, Unescape, EscapeByte;
    if WholeEscapes(s, a) {
      var k :| 0 <= k <= |s| && a == Escape(s[..k]);
      assert s == s[..k] + s[k..];
      EscapeAppend(s[..k], s[k..]);
      assert b == (a + b)[|a|..] == Escape(s[k..]);
      RoundTrip(s[..k]);
      RoundTrip(s[k..]);
    } else {
      var k := CutInside(s, a, b);
      UnescapeAfterWhole(s[..k], [EscapeByte(s[k])[0]]);
      UnescapeShort([EscapeByte(s[k])[0]]);
      SecondByte(s[k]);
      StraySecond(EscapeByte(s[k])[1], s[k+1..]);
      assert |Unescape(a) + Unescape(b)| == |s| + 1;
    }
  }

  // ---------------------------------------------------------------- any number of reads

  function Concat(pieces: seq<seq<byte>>): seq<byte> {
    if pieces == [] then [] else pieces[0] + Concat(pieces[1..])
  }

  /** What reading the pieces one by one gives. */
  function UnescapeEach(pieces: seq<seq<byte>>): seq<byte> {
    if pieces == [] then [] else Unescape(pieces[0]) + UnescapeEach(pieces[1..])
  }

  /** Every cut falls between two escapes. */
  ghost predicate CutBetween(s: seq<byte>, pieces: seq<seq<byte>>) {
    forall i :: 0 <= i <= |pieces| ==> WholeEscapes(s, Concat(pieces[..i]))
  }

  lemma {:induction false} UnescapeRest(b: seq<byte>)
    requires b != []
    ensures |Unescape(b[1..])| <= |Unescape(b)|
    decreases |b|
  {
    if |b| > 1 && IsPair(b[0], b[1]) {
      UnescapeRest(b[1..]);
      assert b[1..][1..] == b[2..];
      if |b| > 2 && IsPair(b[1], b[2]) {
        assert b[1..][2..] == b[2..][1..];
        UnescapeRest(b[2..]);
      }
    }
  }

  /** A cut never makes less of what is read. */
  lemma {:induction false} CutGainsNothing(a: seq<byte>, b: seq<byte>)
    ensures |Unescape(a + b)| <= |Unescape(a)| + |Unescape(b)|
    decreases |a|
  {
    if a == [] {
      assert a + b == b;
    } else if |a| == 1 {
      assert (a + b)[1..] == b;
      if b != [] {
        UnescapeRest(b);
        assert (a + b)[2..] == b[1..];
      }
    } else if IsPair(a[0], a[1]) {
      assert (a + b)[2..] == a[2..] + b;
      CutGainsNothing(a[2..], b);
    } else {
      assert (a + b)[1..] == a[1..] + b;
      CutGainsNothing(a[1..], b);
    }
  }

  lemma {:induction false} EachGainsNothing(pieces: seq<seq<byte>>)
    ensures |Unescape(Concat(pieces))| <= |UnescapeEach(pieces)|
    decreases |pieces|
  {
    hide Unescape;
    if pieces == [] {
      UnescapeNothing();
    } else {
      CutGainsNothing(pieces[0], Concat(pieces[1..]));
      EachGainsNothing(pieces[1..]);
    }
  }

  lemma UnescapeNothing()
    ensures Unescape([]) == []
  {
  }

  /** After whole escapes, the cuts of the rest are the cuts of the whole. */
  lemma CutsAfterWhole(s: seq<byte>, pieces: seq<seq<byte>>, k: nat)
    requires pieces != [] && k <= |s| && pieces[0] == Escape(s[..k]) && Concat(pieces) == Escape(s)
    ensures CutBetween(s, pieces) <==> CutBetween(s[k..], pieces[1..])
  {
    var rest := pieces[1..];
    forall i | 0 <= i <= |rest|
      ensures WholeEscapes(s, Concat(pieces[..i+1])) <==> WholeEscapes(s[k..], Concat(rest[..i]))
    {
      assert pieces[..i+1][1..] == rest[..i];
      assert Concat(pieces[..i+1]) == Escape(s[..k]) + Concat(rest[..i]);
      WholeAfter(s, k, Concat(rest[..i]));
    }
    NothingIsWhole(s);
    assert pieces[..0] == [];
    if CutBetween(s[k..], rest) {
      forall i | 0 <= i <= |pieces|
        ensures WholeEscapes(s, Concat(pieces[..i]))
      {
        if i > 0 {
          assert WholeEscapes(s[k..], Concat(rest[..i-1]));
        }
      }
    }
    if CutBetween(s, pieces) {
      forall i | 0 <= i <= |rest|
        ensures WholeEscapes(s[k..], Concat(rest[..i]))
      {
        assert WholeEscapes(s, Concat(pieces[..i+1]));
      }
    }
  }

  lemma {:induction false} EscapeGrows(s: seq<byte>)
    ensures |Escape(s)| >= |s|
    decreases |s|
  {
    if s != [] {
      EscapeGrows(s[1..]);
    }
  }

  lemma WholeAfterWhole(s: seq<byte>, k: nat, b: seq<byte>)
    requires k <= |s| && WholeEscapes(s[k..], b)
    ensures WholeEscapes(s, Escape(s[..k]) + b)
  {
    hide Escape;
    var j :| 0 <= j <= |s[k..]| && b == Escape(s[k..][..j]);
    EscapeAppend(s[..k], s[k..][..j]);
    assert s[..k] + s[k..][..j] == s[..k+j];
  }

  lemma WholeLeavesWhole(s: seq<byte>, k: nat, b: seq<byte>)
    requires k <= |s| && WholeEscapes(s, Escape(s[..k]) + b)
    ensures WholeEscapes(s[k..], b)
  {
    hide Escape;
    var j :| 0 <= j <= |s| && Escape(s[..k]) + b == Escape(s[..j]);
    var longer, shorter := if j >= k then j else k, if j >= k then k else j;
    EscapeAppend(s[..shorter], s[shorter..longer]);
    assert s[..longer] == s[..shorter] + s[shorter..longer];
    EscapeGrows(s[shorter..longer]);
    assert j >= k;
    assert b == (Escape(s[..k]) + b)[|Escape(s[..k])|..] == Escape(s[k..j]);
    assert s[k..j] == s[k..][..j-k];
  }

  /** Whole escapes can be recognised after whole escapes. */
  lemma WholeAfter(s: seq<byte>, k: nat, b: seq<byte>)
    requires k <= |s|
    ensures WholeEscapes(s, Escape(s[..k]) + b) <==> WholeEscapes(s[k..], b)
  {
    hide WholeEscapes;
    if WholeEscapes(s[k..], b) {
      WholeAfterWhole(s, k, b);
    }
    if WholeEscapes(s, Escape(s[..k]) + b) {
      WholeLeavesWhole(s, k, b);
    }
  }

  lemma SecondByte(b: byte)
    requires |EscapeByte(b)| == 2
    ensures EscapeByte(b)[1] == IAC || EscapeByte(b)[1] == 0
  {
  }

  /** Read in any number of pieces, the original comes back exactly when every cut falls between two escapes. */
  lemma {:induction false} AnyReads(s: seq<byte>, pieces: seq<seq<byte>>)
    requires Concat(pieces) == Escape(s)
    ensures UnescapeEach(pieces) == s <==> CutBetween(s, pieces)
    decreases |pieces|
  {
    hide Unescape, WholeEscapes, EscapeByte;
    if pieces == [] {
      EscapeGrows(s);
      NothingIsWhole(s);
      return;
    }
    var a, rest := pieces[0], pieces[1..];
    if WholeEscapes(s, a) {
      var k := WholeCut(s, a, Concat(rest));
      CutsAfterWhole(s, pieces, k);
      AnyReads(s[k..], rest);
      RoundTrip(s[..k]);
      assert s == s[..k] + s[k..];
      assert (s[..k] + UnescapeEach(rest))[k..] == UnescapeEach(rest);
    } else {
      var k := CutInside(s, a, Concat(rest));
      UnescapeAfterWhole(s[..k], [EscapeByte(s[k])[0]]);
      UnescapeShort([EscapeByte(s[k])[0]]);
      SecondByte(s[k]);
      StraySecond(EscapeByte(s[k])[1], s[k+1..]);
      EachGainsNothing(rest);
      assert |UnescapeEach(pieces)| > |s|;
      assert pieces[..1] == [a] && Concat([a]) == a + Concat([a][1..]) == a;
      assert !WholeEscapes(s, Concat(pieces[..1]));
    }
  }

  lemma WholeCut(s: seq<byte>, a: seq<byte>, b: seq<byte>) returns (k: nat)
    requires a + b == Escape(s) && WholeEscapes(s, a)
    ensures k <= |s| && a == Escape(s[..k]) && b == Escape(s[k..])
  {
    k :| 0 <= k <= |s| && a == Escape(s[..k]);
    assert s == s[..k] + s[k..];
    EscapeAppend(s[..k], s[k..]);
    assert b == (a + b)[|a|..];
  }

  // ---------------------------------------------------------------- the operations

  /** What `write` makes of one byte's escape: a failure, or some of its bytes. */
  type WriteResult = i: int | -1 <= i <= 2 witness 0

  /** The bytes that get out when the write of byte `i` takes `took(i)` bytes, a failure ending the loop. */
  function Emitted(buf: seq<byte>, took: nat -> WriteResult, n: nat): seq<byte>
    requires n <= |buf|
  {
    if n == 0 then [] else Emitted(buf, took, n - 1) + EscapeByte(buf[n-1])[..Part(buf[n-1], took(n - 1))]
  }

  /** How much of an escape is written. */
  function Part(b: byte, taken: WriteResult): nat {
    if taken < 0 then 0 else if taken > |EscapeByte(b)| then |EscapeByte(b)| else taken
  }

  /** Where the loop ends: at the first failure, or after the last byte. */
  function FirstFailure(took: nat -> WriteResult, from: nat, n: nat): (i: nat)
    requires from <= n
    ensures from <= i <= n && (i < n ==> took(i) < 0) && forall j :: from <= j < i ==> took(j) >= 0
    decreases n - from
  {
    if from == n || took(from) < 0 then from else FirstFailure(took, from + 1, n)
  }

  /** What gets out is the escaped form of the bytes before the failure exactly when no escape was cut short. */
  lemma {:induction false} EmittedWhole(buf: seq<byte>, took: nat -> WriteResult, n: nat)
    requires n <= |buf|
    ensures |Emitted(buf, took, n)| <= |Escape(buf[..n])|
    ensures Emitted(buf, took, n) == Escape(buf[..n]) <==>
            forall i :: 0 <= i < n ==> Part(buf[i], took(i)) == |EscapeByte(buf[i])|
  {
    hide EscapeByte, Part;
    if n > 0 {
      EmittedWhole(buf, took, n - 1);
      EscapeAppend(buf[..n-1], [buf[n-1]]);
      assert buf[..n] == buf[..n-1] + [buf[n-1]];
      EscapeOfOne(buf[n-1]);
      PartOfEscape(buf[n-1], took(n - 1));
      var e := EscapeByte(buf[n-1]);
      var part := e[..Part(buf[n-1], took(n - 1))];
      SplitEqual(Emitted(buf, took, n - 1), part, Escape(buf[..n-1]), e);
    }
  }

  lemma EscapeOfOne(b: byte)
    ensures Escape([b]) == EscapeByte(b)
  {
    assert Escape([b]) == EscapeByte(b) + Escape([]);
  }

  lemma PartOfEscape(b: byte, taken: WriteResult)
    ensures Part(b, taken) <= |EscapeByte(b)|
  {
  }

  /** Shorter or equal parts make the same whole only if each is the same. */
  lemma SplitEqual(a: seq<byte>, b: seq<byte>, c: seq<byte>, d: seq<byte>)
    requires |a| <= |c| && |b| <= |d| && b == d[..|b|]
    ensures a + b == c + d <==> a == c && |b| == |d|
  {
    if a + b == c + d {
      assert (a + b)[..|a|] == a && (c + d)[..|c|] == c;
    }
  }

  /** Writes `buf` a byte at a time until a write fails, adding up what the writes take. */
  method RawWrite(buf: seq<byte>, took: nat -> WriteResult) returns (emitted: seq<byte>, retlen: nat)
    ensures emitted == Emitted(buf, took, FirstFailure(took, 0, |buf|)) && retlen == |emitted|
  {
    hide EscapeByte, Part;
    emitted, retlen := [], 0;
    var i := 0;
    while i < |buf|
      invariant i <= |buf| && emitted == Emitted(buf, took, i) && retlen == |emitted|
      invariant FirstFailure(took, 0, |buf|) == FirstFailure(took, i, |buf|)
    {
      PartOfEscape(buf[i], took(i));
      var mylen := took(i);
      if mylen < 0 {
        break;
      }
      var part := EscapeByte(buf[i])[..Part(buf[i], mylen)];
      emitted, retlen := emitted + part, retlen + |part|;
      i := i + 1;
    }
  }

  /** Deletes position `i` of the first `n` by moving up what follows. */
  method DeleteAt(buf: array<byte>, i: nat, n: nat)
    requires i < n <= buf.Length
    modifies buf
    ensures buf[..n-1] == old(buf[..n])[..i] + old(buf[..n])[i+1..]
  {
    for j := i to n - 1
      invariant forall k :: 0 <= k < i ==> buf[k] == old(buf[k])
      invariant forall k :: i <= k < j ==> buf[k] == old(buf[k+1])
      invariant forall k :: j <= k < buf.Length ==> buf[k] == old(buf[k])
    {
      buf[j] := buf[j + 1];
    }
  }

  lemma UnescapeStep(done: seq<byte>, rest: seq<byte>)
    requires |rest| >= 2
    ensures var next := if IsPair(rest[0], rest[1]) then rest[2..] else rest[1..];
      done + Unescape(rest) == (done + [rest[0]]) + Unescape(next)
  {
  }

  lemma PartsAt(done: seq<byte>, rest: seq<byte>)
    requires |rest| >= 2
    ensures (done + rest)[|done|] == rest[0] && (done + rest)[|done| + 1] == rest[1]
    ensures done + rest == (done + [rest[0]]) + rest[1..]
    ensures (done + rest)[..|done| + 1] + (done + rest)[|done| + 2..] == (done + [rest[0]]) + rest[2..]
  {
  }

  lemma UnescapeShort(s: seq<byte>)
    requires |s| <= 1
    ensures Unescape(s) == s
  {
  }

  /** Removes the second byte of every pair in place. After a removal the byte that moved up is passed over: it belongs
      to the next pair. */
  method RawRead(buf: array<byte>, got: nat) returns (retlen: nat)
    requires got <= buf.Length
    modifies buf
    ensures retlen <= got && buf[..retlen] == Unescape(old(buf[..got]))
  {
    hide Unescape, IsPair;
    ghost var s := buf[..got];
    retlen := got;
    var i := 0;
    ghost var done, rest: seq<byte> := [], s;
    assert done + Unescape(rest) == Unescape(s);
    while i < retlen
      invariant i <= retlen + 1 && retlen <= got
      invariant buf[..retlen] == done + rest && |done| == (if i == 0 then 0 else i - 1)
      invariant Unescape(s) == done + Unescape(rest)
    {
      if i > 0 {
        ghost var before := buf[..retlen];
        PartsAt(done, rest);
        UnescapeStep(done, rest);
        assert buf[i-1] == before[i-1] && buf[i] == before[i];
        if IsPair(buf[i-1], buf[i]) {
          DeleteAt(buf, i, retlen);
          retlen := retlen - 1;
          done, rest := done + [rest[0]], rest[2..];
        } else {
          done, rest := done + [rest[0]], rest[1..];
        }
      }
      i := i + 1;
    }
    UnescapeShort(rest);
  }
}
