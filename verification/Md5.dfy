/** The streaming MD5 of lib/libSystem/crypt.c: bytes packed into words as they come, against the padding and folding of
    sections 3.1 to 3.5 of RFC 1321. The compression function is arbitrary. */
module Md5 {
  import opened Wire

  const TWO32: nat := 0x1_0000_0000
  const TWO64: nat := 0x1_0000_0000_0000_0000

  datatype State = State(A: nat, B: nat, C: nat, D: nat)

  const MD5_INIT: State := State(0x67452301, 0xefcdab89, 0x98badcfe, 0x10325476)

  // ---------------------------------------------------------------- the digest, all at once

  function Weight(k: nat): nat {
    if k == 0 then 1 else if k == 1 then 0x100 else if k == 2 then 0x1_0000 else 0x100_0000
  }

  /** The first `k` bytes of word `w`, low byte first. */
  function PartAt(s: seq<byte>, w: nat, k: nat): (v: nat)
    requires k <= 4 && 4 * w + k <= |s|
    ensures v < if k == 4 then TWO32 else Weight(k)
  {
    if k == 0 then 0 else PartAt(s, w, k - 1) + s[4*w + k - 1] as nat * Weight(k - 1)
  }

  function Words(s: seq<byte>): (x: seq<nat>)
    requires |s| == 64
    ensures |x| == 16
  {
    seq(16, w requires 0 <= w < 16 => PartAt(s, w, 4))
  }

  /** The state after the blocks of `s`, a whole number of them. */
  function Fold(compress: (State, seq<nat>) -> State, s: seq<byte>): State
  {
    if |s| < 64 then MD5_INIT else compress(Fold(compress, s[..|s|-64]), Words(s[|s|-64..]))
  }

  function Zeros(n: nat): (z: seq<byte>)
    ensures |z| == n
  {
    seq(n, i => 0 as byte)
  }

  function Bytes32(n: nat): (s: seq<byte>)
    ensures |s| == 4
  {
    [(n % 0x100) as byte, (n / 0x100 % 0x100) as byte, (n / 0x1_0000 % 0x100) as byte, (n / 0x100_0000 % 0x100) as byte]
  }

  /** The message with a one bit, zeros up to 56 modulo 64 bytes, and its length in bits in eight bytes. */
  function Padded(msg: seq<byte>): seq<byte> {
    var bits := 8 * |msg|;
    msg + [0x80] + Zeros((119 - |msg| % 64) % 64) + Bytes32(bits % TWO32) + Bytes32(bits / TWO32 % TWO32)
  }

  function Digest(compress: (State, seq<nat>) -> State, msg: seq<byte>): seq<byte> {
    var st := Fold(compress, Padded(msg));
    Bytes32(st.A) + Bytes32(st.B) + Bytes32(st.C) + Bytes32(st.D)
  }

  /** Words are read low byte first. */
  lemma WordValue(s: seq<byte>, w: nat)
    requires 4 * w + 4 <= |s|
    ensures PartAt(s, w, 4) == s[4*w] as nat + 0x100 * s[4*w+1] as nat + 0x1_0000 * s[4*w+2] as nat
                               + 0x100_0000 * s[4*w+3] as nat
  {
    assert PartAt(s, w, 1) == PartAt(s, w, 0) + s[4*w] as nat * Weight(0);
    assert PartAt(s, w, 2) == PartAt(s, w, 1) + s[4*w+1] as nat * Weight(1);
    assert PartAt(s, w, 3) == PartAt(s, w, 2) + s[4*w+2] as nat * Weight(2);
    assert PartAt(s, w, 4) == PartAt(s, w, 3) + s[4*w+3] as nat * Weight(3);
  }

  /** A message of whole blocks is folded block by block, each as sixteen words, in order and low byte first. */
  lemma FoldedByBlocks(compress: (State, seq<nat>) -> State, s: seq<byte>, b: seq<byte>, w: nat)
    requires |s| % 64 == 0 && |b| == 64 && w < 16
    ensures Fold(compress, []) == MD5_INIT && Fold(compress, s + b) == compress(Fold(compress, s), Words(b))
    ensures Words(b)[w] == b[4*w] as nat + 0x100 * b[4*w+1] as nat + 0x1_0000 * b[4*w+2] as nat
                           + 0x100_0000 * b[4*w+3] as nat
  {
    hide PartAt;
    WordValue(b, w);
    assert (s + b)[..|s + b|-64] == s && (s + b)[|s + b|-64..] == b;
  }

  /** The state starts as section 3.3 of RFC 1321 gives it: the sixteen bytes read low byte first. */
  lemma InitialBytes()
    ensures var start: seq<byte> := [0x01, 0x23, 0x45, 0x67, 0x89, 0xab, 0xcd, 0xef,
                                     0xfe, 0xdc, 0xba, 0x98, 0x76, 0x54, 0x32, 0x10];
      MD5_INIT == State(PartAt(start, 0, 4), PartAt(start, 1, 4), PartAt(start, 2, 4), PartAt(start, 3, 4))
  {
    var start: seq<byte> := [0x01, 0x23, 0x45, 0x67, 0x89, 0xab, 0xcd, 0xef,
                             0xfe, 0xdc, 0xba, 0x98, 0x76, 0x54, 0x32, 0x10];
    hide PartAt;
    WordValue(start, 0);
    WordValue(start, 1);
    WordValue(start, 2);
    WordValue(start, 3);
  }

  // ---------------------------------------------------------------- packing

  /** The words hold `p`, low bytes first; the bytes of the last word that are still to come are zero. */
  ghost predicate Packed(x: seq<nat>, p: seq<byte>) {
    && |x| == 16 && |p| < 64
    && (forall w :: 0 <= w < |p| / 4 ==> x[w] == PartAt(p, w, 4))
    && (|p| % 4 != 0 ==> x[|p| / 4] == PartAt(p, |p| / 4, |p| % 4))
  }

  /** Or-ing a byte in above the bytes that are there: its bits are clear, so it is added. */
  function OrByte(l: nat, b: byte, k: nat): (r: nat)
    requires k < 4 && l < Weight(k)
    ensures r < if k == 3 then TWO32 else Weight(k + 1)
  {
    l + b as nat * Weight(k)
  }

  lemma {:induction false} PartOfPrefix(s: seq<byte>, t: seq<byte>, w: nat, k: nat)
    requires k <= 4 && 4 * w + k <= |s| && s <= t
    ensures PartAt(t, w, k) == PartAt(s, w, k)
  {
    if k > 0 {
      PartOfPrefix(s, t, w, k - 1);
    }
  }

  lemma PackedPrefix(x: seq<nat>, p: seq<byte>, s: seq<byte>)
    requires Packed(x, p) && p <= s
    ensures forall w :: 0 <= w < |p| / 4 ==> x[w] == PartAt(s, w, 4)
    ensures |p| % 4 != 0 ==> x[|p| / 4] == PartAt(s, |p| / 4, |p| % 4)
  {
    forall w | 0 <= w < |p| / 4
      ensures x[w] == PartAt(s, w, 4)
    {
      PartOfPrefix(p, s, w, 4);
    }
    PartOfPrefix(p, s, |p| / 4, |p| % 4);
  }

  // ---------------------------------------------------------------- reading words

  /** `n` bytes of `s` from `i` are those of `d` from `at`. */
  ghost predicate Agree(s: seq<byte>, i: nat, d: seq<byte>, at: nat, n: nat) {
    i + n <= |s| && at + n <= |d| && forall k :: i <= k < i + n ==> s[k] == d[at + (k - i)]
  }

  /** Completes word `sw`, of which `sc` bytes are there, from `d` at `at`. `s` is the text the words are to hold. */
  method FillWord(data: array<nat>, d: seq<byte>, at: nat, sw: nat, sc: nat, ghost s: seq<byte>)
    requires data.Length == 16 && sw < 16 && sc < 4 && 4 * sw + 4 <= |s| && at + 4 - sc <= |d|
    requires sc > 0 ==> data[sw] == PartAt(s, sw, sc)
    requires Agree(s, 4 * sw + sc, d, at, 4 - sc)
    modifies data
    ensures data[sw] == PartAt(s, sw, 4)
    ensures forall w :: 0 <= w < 16 && w != sw ==> data[w] == old(data[w])
  {
    var l := data[sw];
    var cp := at;
    if sc == 0 {
      l := d[cp] as nat;
      cp := cp + 1;
      assert l == PartAt(s, sw, 0) + s[4 * sw + 0] as nat * Weight(0);
    }
    assert sc <= 1 ==> l == PartAt(s, sw, 1);
    if sc <= 1 {
      l := OrByte(l, d[cp], 1);
      cp := cp + 1;
    }
    assert sc <= 2 ==> l == PartAt(s, sw, 2);
    if sc <= 2 {
      l := OrByte(l, d[cp], 2);
      cp := cp + 1;
    }
    l := OrByte(l, d[cp], 3);
    data[sw] := l;
  }

  /** Reads whole words `from` to `to`. */
  method ReadWords(data: array<nat>, d: seq<byte>, at: nat, from: nat, to: nat, ghost s: seq<byte>)
    requires data.Length == 16 && from <= to <= 16 && 4 * to <= |s| && at + 4 * (to - from) <= |d|
    requires Agree(s, 4 * from, d, at, 4 * (to - from))
    modifies data
    ensures forall w :: from <= w < to ==> data[w] == PartAt(s, w, 4)
    ensures forall w :: 0 <= w < 16 && !(from <= w < to) ==> data[w] == old(data[w])
  {
    var cp := at;
    for sw := from to to
      invariant cp == at + 4 * (sw - from)
      invariant forall w :: from <= w < sw ==> data[w] == PartAt(s, w, 4)
      invariant forall w :: 0 <= w < 16 && !(from <= w < sw) ==> data[w] == old(data[w])
    {
      FillWord(data, d, cp, sw, 0, s);
      cp := cp + 4;
    }
  }

  /** Reads the first `ec` bytes of word `sw`, last byte first. */
  method ReadPart(data: array<nat>, d: seq<byte>, at: nat, sw: nat, ec: nat, ghost s: seq<byte>)
    requires data.Length == 16 && sw < 16 && 0 < ec < 4 && 4 * sw + ec <= |s| && at + ec <= |d|
    requires Agree(s, 4 * sw, d, at, ec)
    modifies data
    ensures data[sw] == PartAt(s, sw, ec)
    ensures forall w :: 0 <= w < 16 && w != sw ==> data[w] == old(data[w])
  {
    var l, cp := 0, at + ec;
    if ec == 3 {
      cp := cp - 1;
      l := d[cp] as nat * 0x1_0000;
    }
    if ec >= 2 {
      cp := cp - 1;
      l := l + d[cp] as nat * 0x100;
    }
    cp := cp - 1;
    l := l + d[cp] as nat;
    assert PartAt(s, sw, 1) == s[4 * sw + 0] as nat * Weight(0);
    assert ec >= 2 ==> PartAt(s, sw, 2) == PartAt(s, sw, 1) + s[4 * sw + 1] as nat * 0x100;
    data[sw] := l;
  }

  /** Adds `len` bytes to word `sw`, of which `sc` are there, without completing it. */
  method ExtendPart(data: array<nat>, d: seq<byte>, sw: nat, sc: nat, ghost s: seq<byte>)
    requires data.Length == 16 && sw < 16 && |d| > 0 && sc + |d| < 4 && 4 * sw + sc + |d| <= |s|
    requires sc > 0 ==> data[sw] == PartAt(s, sw, sc)
    requires Agree(s, 4 * sw + sc, d, 0, |d|)
    modifies data
    ensures data[sw] == PartAt(s, sw, sc + |d|)
    ensures forall w :: 0 <= w < 16 && w != sw ==> data[w] == old(data[w])
  {
    var l, cp, len := data[sw], 0, |d|;
    var more := true;
    if sc == 0 {
      l := d[cp] as nat;
      cp, len := cp + 1, len - 1;
      more := len != 0;
      assert l == PartAt(s, sw, 0) + s[4 * sw + 0] as nat * Weight(0);
    }
    assert l == PartAt(s, sw, sc + cp);
    if more && sc <= 1 {
      l := OrByte(l, d[cp], 1);
      cp, len := cp + 1, len - 1;
      more := len != 0;
    }
    assert l == PartAt(s, sw, sc + cp);
    if more {
      l := OrByte(l, d[cp], 2);
      cp := cp + 1;
    }
    data[sw] := l;
  }

  // ---------------------------------------------------------------- counting bits

  lemma Remainder(x: nat, k: nat, r: nat)
    requires x == k * TWO64 + r && r < TWO64
    ensures x % TWO64 == r
  {
  }

  /** The low word wraps and carries; the high word takes the carry and the top bits of the length. */
  lemma CarryBits(nl: nat, len: nat) returns (l: nat, c: nat)
    requires nl < TWO32 && len < TWO32
    ensures l == (nl + len * 8 % TWO32) % TWO32 && c == if l < nl then 1 else 0
    ensures nl + 8 * len == l + TWO32 * (c + len / 0x2000_0000)
  {
    var low := len * 8 % TWO32;
    assert 8 * len == low + TWO32 * (len / 0x2000_0000);
    l := (nl + low) % TWO32;
    c := if l < nl then 1 else 0;
    assert nl + low == l + TWO32 * c;
  }

  /** The two-word count of bits stays right modulo two to the 64th. */
  lemma CountBits(nl: nat, nh: nat, total: nat, len: nat)
    requires nl < TWO32 && nh < TWO32 && nl + TWO32 * nh == total % TWO64 && len < TWO32
    ensures var l := (nl + len * 8 % TWO32) % TWO32;
      l + TWO32 * ((nh + (if l < nl then 1 else 0) + len / 0x2000_0000) % TWO32) == (total + 8 * len) % TWO64
  {
    var l, c := CarryBits(nl, len);
    var sum := nh + c + len / 0x2000_0000;
    var h, q := sum % TWO32, sum / TWO32;
    assert sum == h + TWO32 * q;
    var k := total / TWO64;
    assert total == k * TWO64 + (nl + TWO32 * nh);
    assert total + 8 * len == (k + q) * TWO64 + (l + TWO32 * h);
    Remainder(total + 8 * len, k + q, l + TWO32 * h);
  }

  // ---------------------------------------------------------------- whole blocks

  lemma FoldSnoc(compress: (State, seq<nat>) -> State, done: seq<byte>, s: seq<byte>)
    requires |s| == 64
    ensures Fold(compress, done + s) == compress(Fold(compress, done), Words(s))
  {
    assert (done + s)[..|done + s|-64] == done && (done + s)[|done + s|-64..] == s;
  }

  lemma AllWords(x: seq<nat>, s: seq<byte>)
    requires |x| == 16 && |s| == 64 && forall w :: 0 <= w < 16 ==> x[w] == PartAt(s, w, 4)
    ensures x == Words(s)
  {
  }

  // ---------------------------------------------------------------- the last blocks

  /** The text of the last block when the length still fits in. */
  function OneBlock(p: seq<byte>, nl: nat, nh: nat): (s: seq<byte>)
    requires |p| < 56
    ensures |s| == 64 && p <= s && s[|p|] == 0x80 && s[56..60] == Bytes32(nl) && s[60..] == Bytes32(nh)
    ensures forall k :: |p| < k < 56 ==> s[k] == 0
  {
    p + [0x80] + Zeros(55 - |p|) + Bytes32(nl) + Bytes32(nh)
  }

  function FirstOfTwo(p: seq<byte>): (s: seq<byte>)
    requires 56 <= |p| < 64
    ensures |s| == 64 && p <= s && s[|p|] == 0x80
    ensures forall k :: |p| < k < 64 ==> s[k] == 0
  {
    p + [0x80] + Zeros(63 - |p|)
  }

  function SecondOfTwo(nl: nat, nh: nat): (s: seq<byte>)
    ensures |s| == 64
  {
    Zeros(56) + Bytes32(nl) + Bytes32(nh)
  }

  lemma SecondBlock(nl: nat, nh: nat)
    ensures var s := SecondOfTwo(nl, nh);
      s[56..60] == Bytes32(nl) && s[60..] == Bytes32(nh) && forall k :: 0 <= k < 56 ==> s[k] == 0
  {
  }

  lemma PaddedInOne(msg: seq<byte>, done: seq<byte>, p: seq<byte>)
    requires msg == done + p && |done| % 64 == 0 && |p| < 56
    ensures Padded(msg) == done + OneBlock(p, 8 * |msg| % TWO32, 8 * |msg| / TWO32 % TWO32)
  {
    hide Bytes32;
    assert |msg| % 64 == |p|;
  }

  lemma PaddedInTwo(msg: seq<byte>, done: seq<byte>, p: seq<byte>)
    requires msg == done + p && |done| % 64 == 0 && 56 <= |p| < 64
    ensures Padded(msg) == done + FirstOfTwo(p) + SecondOfTwo(8 * |msg| % TWO32, 8 * |msg| / TWO32 % TWO32)
  {
    hide Bytes32;
    assert |msg| % 64 == |p|;
    assert Zeros(119 - |p|) == Zeros(63 - |p|) + Zeros(56);
  }

  lemma CountWords(nl: nat, nh: nat, bits: nat)
    requires nl < TWO32 && nh < TWO32 && nl + TWO32 * nh == bits % TWO64
    ensures nl == bits % TWO32 && nh == bits / TWO32 % TWO32
  {
    var k := bits / TWO64;
    assert bits == k * TWO64 + nl + TWO32 * nh;
    assert bits == (k * TWO32 + nh) * TWO32 + nl;
    assert bits / TWO32 == k * TWO32 + nh;
  }

  lemma {:induction false} ZeroPart(s: seq<byte>, w: nat, k: nat)
    requires k <= 4 && 4 * w + k <= |s| && forall i :: 4 * w <= i < 4 * w + k ==> s[i] == 0
    ensures PartAt(s, w, k) == 0
  {
    if k > 0 {
      ZeroPart(s, w, k - 1);
    }
  }

  lemma Digits(n: nat)
    requires n < TWO32
    ensures n == n % 0x100 + n / 0x100 % 0x100 * 0x100 + n / 0x1_0000 % 0x100 * 0x1_0000
               + n / 0x100_0000 % 0x100 * 0x100_0000
  {
    assert n == n % 0x100 + n / 0x100 * 0x100;
    assert n / 0x100 == n / 0x100 % 0x100 + n / 0x1_0000 * 0x100;
    assert n / 0x1_0000 == n / 0x1_0000 % 0x100 + n / 0x100_0000 * 0x100;
  }

  lemma NumberPart(s: seq<byte>, w: nat, n: nat)
    requires 4 * w + 4 <= |s| && s[4*w..4*w+4] == Bytes32(n) && n < TWO32
    ensures PartAt(s, w, 4) == n
  {
    hide PartAt;
    Digits(n);
    WordValue(s, w);
    var b := Bytes32(n);
    assert s[4*w] == s[4*w..4*w+4][0] && s[4*w+1] == b[1] && s[4*w+2] == b[2] && s[4*w+3] == b[3];
  }

  lemma RestOfSum(n: nat, k: nat, r: nat)
    requires n == 0x100 * k + r
    ensures n % 0x100 == r % 0x100 && n / 0x100 == k + r / 0x100
  {
  }

  lemma DigitByDigit(n: nat)
    ensures n / 0x1_0000 == n / 0x100 / 0x100 && n / 0x100_0000 == n / 0x1_0000 / 0x100
  {
  }

  lemma SameBytes(n: nat, m: nat)
    requires n % 0x100 == m % 0x100 && n / 0x100 % 0x100 == m / 0x100 % 0x100
    requires n / 0x1_0000 % 0x100 == m / 0x1_0000 % 0x100 && n / 0x100_0000 % 0x100 == m / 0x100_0000 % 0x100
    ensures Bytes32(n) == Bytes32(m)
  {
  }

  lemma RestOfWord(n: nat, q: nat, r: nat)
    requires n == TWO32 * q + r
    ensures n % 0x100 == r % 0x100 && n / 0x100 == 0x100_0000 * q + r / 0x100
    ensures n / 0x100 / 0x100 == 0x1_0000 * q + r / 0x100 / 0x100
    ensures n / 0x100 % 0x100 == r / 0x100 % 0x100
  {
    RestOfSum(n, 0x100_0000 * q, r);
    RestOfSum(n / 0x100, 0x1_0000 * q, r / 0x100);
  }

  lemma LowWord(n: nat)
    ensures Bytes32(n) == Bytes32(n % TWO32)
  {
    hide Bytes32;
    var q, r := n / TWO32, n % TWO32;
    RestOfWord(n, q, r);
    DigitByDigit(n);
    DigitByDigit(r);
    var n2, r2 := n / 0x1_0000, r / 0x1_0000;
    RestOfSum(n2, 0x100 * q, r2);
    RestOfSum(n2 / 0x100, q, r2 / 0x100);
    SameBytes(n, r);
  }

  /** The sixteen bytes of `md` are A, B, C and D, low bytes first. */
  ghost predicate Shows(md: seq<byte>, st: State) {
    && |md| == 16
    && PartAt(md, 0, 4) == st.A % TWO32 && PartAt(md, 1, 4) == st.B % TWO32
    && PartAt(md, 2, 4) == st.C % TWO32 && PartAt(md, 3, 4) == st.D % TWO32
  }

  /** Read back with the words the message is read with, the digest is the final state (section 3.5 of RFC 1321). */
  lemma DigestShowsState(compress: (State, seq<nat>) -> State, msg: seq<byte>)
    ensures Shows(Digest(compress, msg), Fold(compress, Padded(msg)))
  {
    hide Fold, Padded, PartAt, Bytes32;
    var st, md := Fold(compress, Padded(msg)), Digest(compress, msg);
    LowWord(st.A);
    LowWord(st.B);
    LowWord(st.C);
    LowWord(st.D);
    FourWords(Bytes32(st.A), Bytes32(st.B), Bytes32(st.C), Bytes32(st.D), md);
    NumberPart(md, 0, st.A % TWO32);
    NumberPart(md, 1, st.B % TWO32);
    NumberPart(md, 2, st.C % TWO32);
    NumberPart(md, 3, st.D % TWO32);
  }

  lemma FourWords(a: seq<byte>, b: seq<byte>, c: seq<byte>, d: seq<byte>, s: seq<byte>)
    requires |a| == |b| == |c| == |d| == 4 && s == a + b + c + d
    ensures |s| == 16 && s[0..4] == a && s[4..8] == b && s[8..12] == c && s[12..16] == d
  {
  }

  method ZeroWords(data: array<nat>, from: nat, to: nat, ghost s: seq<byte>)
    requires data.Length == 16 && from <= to <= 16 && 4 * to <= |s|
    requires forall k :: 4 * from <= k < 4 * to ==> s[k] == 0
    modifies data
    ensures forall w :: from <= w < to ==> data[w] == PartAt(s, w, 4)
    ensures forall w :: 0 <= w < 16 && !(from <= w < to) ==> data[w] == old(data[w])
  {
    hide PartAt;
    for i := from to to
      invariant forall w :: from <= w < i ==> data[w] == PartAt(s, w, 4)
      invariant forall w :: 0 <= w < 16 && !(from <= w < i) ==> data[w] == old(data[w])
    {
      data[i] := 0;
      ZeroPart(s, i, 4);
    }
  }

  // ---------------------------------------------------------------- the context

  class Md5Context {
    const compress: (State, seq<nat>) -> State
    var st: State
    var Nl: nat
    var Nh: nat
    const data: array<nat>
    var num: nat
    /** Everything hashed so far. */
    ghost var msg: seq<byte>

    ghost predicate Counted()
      reads this
    {
      Nl < TWO32 && Nh < TWO32 && Nl + TWO32 * Nh == 8 * |msg| % TWO64
    }

    /** `done` is compressed and `p` is waiting in the words. */
    ghost predicate Holds(done: seq<byte>, p: seq<byte>)
      reads this`num, this`st, data
    {
      |done| % 64 == 0 && num == |p| && st == Fold(compress, done) && Packed(data[..], p)
    }

    /** All of `text` is taken in. */
    ghost predicate Stands(text: seq<byte>)
      reads this`num, this`st, data
    {
      num <= |text| && Holds(text[..|text|-num], text[|text|-num..])
    }

    ghost predicate Valid()
      reads this, data
    {
      data.Length == 16 && Counted() && Stands(msg)
    }

    lemma NumIsSmall()
      requires Valid()
      ensures num < 64
    {
    }

    constructor (compress: (State, seq<nat>) -> State)
      ensures Valid() && fresh(data) && msg == [] && this.compress == compress
    {
      this.compress := compress;
      st := MD5_INIT;
      Nl, Nh, num, msg := 0, 0, 0, [];
      data := new nat[16];
    }

    method AddCount(len: nat, ghost d: seq<byte>)
      requires Counted() && len < TWO32 && |d| == len
      modifies this`Nl, this`Nh, this`msg
      ensures Counted() && msg == old(msg) + d
    {
      CountBits(Nl, Nh, 8 * |msg|, len);
      var l := (Nl + len * 8 % TWO32) % TWO32;
      Nh := (Nh + (if l < Nl then 1 else 0) + len / 0x2000_0000) % TWO32;
      Nl := l;
      msg := msg + d;
    }

    /** md5_block on the words held. */
    method Block(ghost done: seq<byte>, ghost s: seq<byte>)
      requires data.Length == 16 && |done| % 64 == 0 && |s| == 64 && st == Fold(compress, done)
      requires forall w :: 0 <= w < 16 ==> data[w] == PartAt(s, w, 4)
      modifies this`st
      ensures st == Fold(compress, done + s)
    {
      AllWords(data[..], s);
      FoldSnoc(compress, done, s);
      st := compress(st, data[..]);
    }

    /** Takes in less than fills the block that is waiting. */
    method Extend(d: seq<byte>, ghost p: seq<byte>)
      requires data.Length == 16 && num == |p| && Packed(data[..], p) && 0 < num && |d| > 0 && num + |d| < 64
      modifies this`num, data
      ensures num == |p + d| && Packed(data[..], p + d)
    {
      hide PartAt;
      ghost var s := p + d;
      PackedPrefix(data[..], p, s);
      var sw, sc := num / 4, num % 4;
      num := num + |d|;
      if sc + |d| < 4 {
        ExtendPart(data, d, sw, sc, s);
      } else {
        var ew, ec := num / 4, num % 4;
        FillWord(data, d, 0, sw, sc, s);
        ReadWords(data, d, 4 - sc, sw + 1, ew, s);
        if ec != 0 {
          ReadPart(data, d, |d| - ec, ew, ec, s);
        }
      }
    }

    /** Completes the block that is waiting and compresses it. */
    method Complete(d: seq<byte>, ghost done: seq<byte>, ghost p: seq<byte>) returns (at: nat)
      requires data.Length == 16 && Holds(done, p) && 0 < num && num + |d| >= 64
      modifies this`num, this`st, data
      ensures num == 0 && at == 64 - |p| && st == Fold(compress, done + (p + d[..at]))
    {
      hide PartAt, Fold;
      at := 64 - num;
      ghost var s := p + d[..at];
      PackedPrefix(data[..], p, s);
      var sw, sc := num / 4, num % 4;
      FillWord(data, d, 0, sw, sc, s);
      ReadWords(data, d, 4 - sc, sw + 1, 16, s);
      Block(done, s);
      num := 0;
    }

    /** Keeps less than a block in the words. */
    method Keep(d: seq<byte>, at: nat)
      requires data.Length == 16 && at <= |d| && |d| - at < 64
      modifies this`num, data
      ensures num == |d| - at && Packed(data[..], d[at..])
    {
      hide PartAt;
      ghost var p := d[at..];
      num := |d| - at;
      ReadWords(data, d, at, 0, num / 4, p);
      if num % 4 != 0 {
        ReadPart(data, d, |d| - num % 4, num / 4, num % 4, p);
      } else if num != 0 {
        data[num / 4] := 0;
      }
    }

    /** Compresses whole blocks of `d` from `from` on, and keeps the rest in the words. */
    method Direct(d: seq<byte>, from: nat, ghost before: seq<byte>)
      requires data.Length == 16 && from <= |d| && |before| % 64 == 0 && st == Fold(compress, before)
      modifies this`num, this`st, data
      ensures num <= |d| - from && Holds(before + d[from..|d|-num], d[|d|-num..])
    {
      hide PartAt, Fold, Packed;
      var at := from;
      ghost var done := before;
      assert before + d[from..from] == before;
      while |d| - at >= 64
        invariant from <= at <= |d| && done == before + d[from..at]
        invariant |done| % 64 == 0 && st == Fold(compress, done)
      {
        ghost var s := d[at..at+64];
        ReadWords(data, d, at, 0, 16, s);
        Block(done, s);
        done := done + s;
        at := at + 64;
        assert done == before + d[from..at];
      }
      Keep(d, at);
    }

    method Absorb(d: seq<byte>, ghost text: seq<byte>)
      requires data.Length == 16 && Stands(text) && |d| > 0
      modifies this`num, this`st, data
      ensures Stands(text + d)
    {
      hide Packed, Fold;
      ghost var done, p := text[..|text|-num], text[|text|-num..];
      assert text == done + p;
      if num == 0 {
        assert done + (p + d[..0]) == done;
        Direct(d, 0, done + (p + d[..0]));
        MessageParts(text + d, done, p, d, 0, num);
      } else if num + |d| < 64 {
        Extend(d, p);
        MessageParts(text + d, done, p, d, 0, num);
      } else {
        var at := Complete(d, done, p);
        Direct(d, at, done + (p + d[..at]));
        MessageParts(text + d, done, p, d, at, num);
      }
    }

    /** Takes in `d`, however it is cut off from what came before. */
    method Update(d: seq<byte>)
      requires Valid() && num + |d| < TWO32
      modifies this, data
      ensures Valid() && msg == old(msg) + d
    {
      hide Stands;
      if |d| == 0 {
        assert msg + d == msg;
        return;
      }
      ghost var text := msg;
      AddCount(|d|, d);
      Absorb(d, text);
    }

    /** Enters the byte 0x80 after what is waiting, and zeros up to the end of its word. */
    method MarkEnd(ghost p: seq<byte>, ghost s: seq<byte>)
      requires data.Length == 16 && num == |p| && Packed(data[..], p) && |s| == 64 && p <= s && s[num] == 0x80
      requires forall k :: num < k < 4 * (num / 4) + 4 ==> s[k] == 0
      modifies data
      ensures forall w :: 0 <= w <= num / 4 ==> data[w] == PartAt(s, w, 4)
    {
      hide PartAt;
      PackedPrefix(data[..], p, s);
      var i := num / 4;
      if num % 4 == 0 {
        data[i] := 0;
      }
      FillWord(data, [0x80, 0, 0, 0], 0, i, num % 4, s);
    }

    /** md5_block on the last words, with the count in the top two. */
    method LastBlock(i: nat, ghost done: seq<byte>, ghost s: seq<byte>)
      requires data.Length == 16 && i <= 14 && |done| % 64 == 0 && st == Fold(compress, done) && |s| == 64
      requires Nl < TWO32 && Nh < TWO32 && s[56..60] == Bytes32(Nl) && s[60..] == Bytes32(Nh)
      requires forall w :: 0 <= w < i ==> data[w] == PartAt(s, w, 4)
      requires forall k :: 4 * i <= k < 56 ==> s[k] == 0
      modifies this`st, data
      ensures st == Fold(compress, done + s)
    {
      hide PartAt, Fold, Bytes32;
      ZeroWords(data, i, 14, s);
      data[14] := Nl;
      data[15] := Nh;
      NumberPart(s, 14, Nl);
      NumberPart(s, 15, Nh);
      Block(done, s);
    }

    /** The length fits in the block that is waiting. */
    method FinishInOne(ghost done: seq<byte>, ghost p: seq<byte>)
      requires data.Length == 16 && Holds(done, p) && |p| < 56 && Nl < TWO32 && Nh < TWO32
      modifies this`st, data
      ensures st == Fold(compress, done + OneBlock(p, Nl, Nh))
    {
      hide Packed, Fold, PartAt, Bytes32, OneBlock;
      ghost var s := OneBlock(p, Nl, Nh);
      MarkEnd(p, s);
      LastBlock(num / 4 + 1, done, s);
    }

    /** The length takes a block of its own. */
    method FinishInTwo(ghost done: seq<byte>, ghost p: seq<byte>)
      requires data.Length == 16 && Holds(done, p) && 56 <= |p| < 64 && Nl < TWO32 && Nh < TWO32
      modifies this`st, data
      ensures st == Fold(compress, done + FirstOfTwo(p) + SecondOfTwo(Nl, Nh))
    {
      hide Packed, Fold, PartAt, Bytes32, FirstOfTwo, SecondOfTwo;
      ghost var s := FirstOfTwo(p);
      MarkEnd(p, s);
      ZeroWords(data, num / 4 + 1, 16, s);
      Block(done, s);
      SecondBlock(Nl, Nh);
      LastBlock(0, done + s, SecondOfTwo(Nl, Nh));
    }

    /** Pads, appends the bit count, and gives the digest of everything taken in. */
    method Final() returns (md: seq<byte>)
      requires Valid()
      modifies this`num, this`st, data
      ensures md == Digest(compress, msg) && Shows(md, Fold(compress, Padded(msg))) && num == 0
    {
      hide Packed, Fold, Bytes32, OneBlock, FirstOfTwo, SecondOfTwo, Padded, Shows;
      DigestShowsState(compress, msg);
      ghost var done, p := msg[..|msg|-num], msg[|msg|-num..];
      assert msg == done + p;
      CountWords(Nl, Nh, 8 * |msg|);
      NumIsSmall();
      if num < 56 {
        PaddedInOne(msg, done, p);
        FinishInOne(done, p);
      } else {
        PaddedInTwo(msg, done, p);
        FinishInTwo(done, p);
      }
      num := 0;
      md := Bytes32(st.A) + Bytes32(st.B) + Bytes32(st.C) + Bytes32(st.D);
    }
  }

  lemma MessageParts(msg: seq<byte>, done: seq<byte>, p: seq<byte>, d: seq<byte>, at: nat, num: nat)
    requires msg == done + p + d && at <= |d|
    ensures num == |p + d| ==> msg[..|msg|-num] == done && msg[|msg|-num..] == p + d
    ensures num <= |d| - at ==>
      msg[..|msg|-num] == done + (p + d[..at]) + d[at..|d|-num] && msg[|msg|-num..] == d[|d|-num..]
  {
  }

  // ---------------------------------------------------------------- any number of pieces

  function Concat(pieces: seq<seq<byte>>): seq<byte> {
    if pieces == [] then [] else Concat(pieces[..|pieces|-1]) + pieces[|pieces|-1]
  }

  /** The digest depends on the message and not on how it is cut up. */
  method HashPieces(compress: (State, seq<nat>) -> State, pieces: seq<seq<byte>>) returns (md: seq<byte>)
    requires forall i :: 0 <= i < |pieces| ==> |pieces[i]| + 63 < TWO32
    ensures md == Digest(compress, Concat(pieces)) && Shows(md, Fold(compress, Padded(Concat(pieces))))
  {
    hide Digest, Shows, Md5Context.Stands, Md5Context.Counted;
    var c := new Md5Context(compress);
    for i := 0 to |pieces|
      invariant c.Valid() && fresh(c) && fresh(c.data) && c.compress == compress && c.msg == Concat(pieces[..i])
    {
      assert pieces[..i+1][..i] == pieces[..i];
      c.NumIsSmall();
      c.Update(pieces[i]);
    }
    assert pieces[..|pieces|] == pieces;
    md := c.Final();
  }

  lemma Rests(n: nat, m: nat, q: nat)
    requires n == 64 * q + m && m < 64
    ensures n % 64 == m
  {
  }

  /** The zero bytes of the padding are the fewest that leave exactly the room for the length in the last block. */
  lemma PaddingIsMinimal(msg: seq<byte>, k: nat)
    requires (|msg| + 1 + k) % 64 == 56
    ensures |Padded(msg)| % 64 == 0 && |Padded(msg)| <= |msg| + 1 + k + 8
    ensures msg + [0x80] <= Padded(msg)
  {
    hide Bytes32;
    var n, m, q := |msg|, |msg| % 64, |msg| / 64;
    var z := (119 - m) % 64;
    assert n == 64 * q + m;
    assert z == if m <= 55 then 55 - m else 119 - m;
    Rests(n + 1 + z + 8, 0, if m <= 55 then q + 1 else q + 2);
    if k < z {
      Rests(n + 1 + k, if m + 1 + k < 64 then m + 1 + k else m + 1 + k - 64, if m + 1 + k < 64 then q else q + 1);
    }
  }

  /** What the padding holds: a one bit, zeros, and in the last two words the length in bits, its low word first. */
  lemma PaddingHolds(msg: seq<byte>)
    ensures var p := Padded(msg);
      && |p| >= |msg| + 9 && p[..|msg|] == msg && p[|msg|] == 0x80
      && (forall i :: |msg| < i < |p| - 8 ==> p[i] == 0)
      && PartAt(p[|p|-8..], 0, 4) + TWO32 * PartAt(p[|p|-8..], 1, 4) == 8 * |msg| % TWO64
  {
    hide PartAt, Bytes32;
    var p, bits := Padded(msg), 8 * |msg|;
    var low, high := Bytes32(bits % TWO32), Bytes32(bits / TWO32 % TWO32);
    var tail := p[|p|-8..];
    assert tail == low + high;
    NumberPart(tail, 0, bits % TWO32);
    NumberPart(tail, 1, bits / TWO32 % TWO32);
    TwoDigits(bits);
  }

  lemma TwoDigits(n: nat)
    ensures n % TWO32 + TWO32 * (n / TWO32 % TWO32) == n % TWO64
  {
    var q := n / TWO32;
    assert n == TWO32 * q + n % TWO32 && q == TWO32 * (q / TWO32) + q % TWO32;
    assert n == TWO64 * (q / TWO32) + (TWO32 * (q % TWO32) + n % TWO32);
  }
}
