/** Integers, strings, characters and big numbers in a Buffer, as bufaux.c stores and retrieves them. */
module Bufaux {
  import opened Wire
  import opened Buffer

  /** A retrieval either fails (the program ends) or gives a value and what is left of the queue. */
  datatype Taken<T> = Fatal | Taken(value: T, rest: seq<byte>)

  const MAX_STRING: nat := 256 * 1024

  // ---------------------------------------------------------------- big numbers

  function NumBits(v: nat): nat {
    if v == 0 then 0 else 1 + NumBits(v / 2)
  }

  /** The big-endian bytes of a number, without leading zeros. */
  function BnBytes(v: nat): seq<byte> {
    if v == 0 then [] else BnBytes(v / 256) + [(v % 256) as byte]
  }

  function BnValue(s: seq<byte>): nat {
    if s == [] then 0 else BnValue(s[..|s|-1]) * 256 + s[|s|-1] as nat
  }

  lemma BitsOfQuotient(v: nat)
    requires v >= 256
    ensures NumBits(v) == 8 + NumBits(v / 256)
  {
    var v1, v2, v3, v4, v5, v6, v7 := v / 2, v / 4, v / 8, v / 16, v / 32, v / 64, v / 128;
    assert v1 / 2 == v2 && v2 / 2 == v3 && v3 / 2 == v4 && v4 / 2 == v5 && v5 / 2 == v6 && v6 / 2 == v7;
    assert v7 / 2 == v / 256;
    assert NumBits(v) == 1 + NumBits(v1) && NumBits(v1) == 1 + NumBits(v2) && NumBits(v2) == 1 + NumBits(v3);
    assert NumBits(v3) == 1 + NumBits(v4) && NumBits(v4) == 1 + NumBits(v5) && NumBits(v5) == 1 + NumBits(v6);
    assert NumBits(v6) == 1 + NumBits(v7) && NumBits(v7) == 1 + NumBits(v / 256);
  }

  lemma {:induction false} SmallBits(v: nat)
    ensures (v == 0 <==> NumBits(v) == 0)
    ensures v < 2 ==> NumBits(v) <= 1
    ensures v < 4 ==> NumBits(v) <= 2
    ensures v < 8 ==> NumBits(v) <= 3
    ensures v < 16 ==> NumBits(v) <= 4
    ensures v < 32 ==> NumBits(v) <= 5
    ensures v < 64 ==> NumBits(v) <= 6
    ensures v < 128 ==> NumBits(v) <= 7
    ensures v < 256 ==> NumBits(v) <= 8
  {
    if v > 0 {
      SmallBits(v / 2);
    }
  }

  /** The program's size computation, `(bits + 7) / 8`, is the number of bytes. */
  lemma {:induction false} ByteCount(v: nat)
    ensures |BnBytes(v)| == (NumBits(v) + 7) / 8
  {
    if v >= 256 {
      ByteCount(v / 256);
      BitsOfQuotient(v);
    } else if v > 0 {
      SmallBits(v);
      assert v / 256 == 0;
    }
  }

  lemma {:induction false} ValueOfBytes(v: nat)
    ensures BnValue(BnBytes(v)) == v
  {
    if v > 0 {
      ValueOfBytes(v / 256);
      assert BnBytes(v)[..|BnBytes(v)|-1] == BnBytes(v / 256);
    }
  }

  function Pow(b: nat, n: nat): nat {
    if n == 0 then 1 else b * Pow(b, n - 1)
  }

  /** The first byte weighs most. */
  lemma {:induction false} FirstByteWeighsMost(s: seq<byte>)
    requires s != []
    ensures BnValue(s) == s[0] as nat * Pow(256, |s| - 1) + BnValue(s[1..])
    decreases |s|
  {
    var init := s[..|s|-1];
    if init != [] {
      FirstByteWeighsMost(init);
      assert s[1..][..|s|-2] == init[1..];
      assert Pow(256, |s| - 1) == 256 * Pow(256, |s| - 2);
      assert s[0] as nat * (256 * Pow(256, |s| - 2)) == s[0] as nat * Pow(256, |s| - 2) * 256;
    } else {
      assert s[1..] == [];
    }
  }

  /** The bit count is that of the number: its highest bit is a one. */
  lemma {:induction false} BitsBound(v: nat)
    requires v > 0
    ensures NumBits(v) > 0 && Pow(2, NumBits(v) - 1) <= v < Pow(2, NumBits(v))
  {
    var n := NumBits(v / 2);
    assert NumBits(v) == n + 1;
    hide NumBits;
    assert Pow(2, n + 1) == 2 * Pow(2, n);
    if v > 1 {
      BitsBound(v / 2);
      assert Pow(2, n) == 2 * Pow(2, n - 1);
    } else {
      SmallBits(0);
    }
  }

  lemma TwoBytes(s: seq<byte>)
    requires |s| == 2
    ensures BnValue(s) == s[0] as nat * 0x100 + s[1] as nat
  {
    assert s[..1][..0] == [] && BnValue(s[..1]) == BnValue(s[..1][..0]) * 256 + s[0] as nat;
  }

  lemma FourBytes(s: seq<byte>)
    requires |s| == 4
    ensures BnValue(s) == s[0] as nat * 0x100_0000 + s[1] as nat * 0x1_0000 + s[2] as nat * 0x100 + s[3] as nat
  {
    assert s[..3][..2] == s[..2];
    TwoBytes(s[..2]);
    assert BnValue(s[..3]) == BnValue(s[..2]) * 256 + s[2] as nat;
  }

  /** Numbers on the wire are big-endian. */
  lemma BigEndian(n: nat, s: seq<byte>)
    ensures n < 0x1_0000_0000 ==> BnValue(Put32(n)) == n
    ensures BnValue(Put16(n)) == n % 0x1_0000
    ensures |s| >= 4 ==> Get32(s) == BnValue(s[..4])
    ensures |s| >= 2 ==> Get16(s) == BnValue(s[..2])
  {
    if n < 0x1_0000_0000 {
      FourBytes(Put32(n));
      GetPut32(n, []);
    }
    TwoBytes(Put16(n));
    GetPut16(n, []);
    assert Put16(n) + [] == Put16(n);
    if |s| >= 4 {
      FourBytes(s[..4]);
    }
    if |s| >= 2 {
      TwoBytes(s[..2]);
    }
  }

  // ---------------------------------------------------------------- what is stored

  function PutInt(v: nat): seq<byte>
    requires v < 0x1_0000_0000
  {
    Put32(v)
  }

  function PutString(s: seq<byte>): seq<byte>
    requires |s| < 0x1_0000_0000
  {
    PutInt(|s|) + s
  }

  function PutBignum(v: nat): seq<byte> {
    Put16(NumBits(v)) + BnBytes(v)
  }

  function GetInt(q: seq<byte>): Taken<nat> {
    if |q| < 4 then Fatal else Taken(Get32(q[..4]), q[4..])
  }

  function GetString(q: seq<byte>): Taken<seq<byte>> {
    match GetInt(q)
    case Fatal => Fatal
    case Taken(len, rest) =>
      if len > MAX_STRING || |rest| < len then Fatal else Taken(rest[..len], rest[len..])
  }

  function GetBignum(q: seq<byte>): Taken<nat> {
    if |q| < 2 then Fatal
    else
      var bytes := (Get16(q[..2]) + 7) / 8;
      if |q| - 2 < bytes then Fatal else Taken(BnValue(q[2..2+bytes]), q[2+bytes..])
  }

  // ---------------------------------------------------------------- round trips

  lemma IntRoundTrip(v: nat, rest: seq<byte>)
    requires v < 0x1_0000_0000
    ensures GetInt(PutInt(v) + rest) == Taken(v, rest)
  {
    GetPut32(v, []);
    assert (PutInt(v) + rest)[..4] == PutInt(v);
    assert (PutInt(v) + rest)[4..] == rest;
  }

  /** A string comes back exactly when it is within the retrieval limit; a longer one is fatal. */
  lemma StringRoundTrip(s: seq<byte>, rest: seq<byte>)
    requires |s| < 0x1_0000_0000
    ensures GetString(PutString(s) + rest) == if |s| <= MAX_STRING then Taken(s, rest) else Fatal
  {
    IntRoundTrip(|s|, s + rest);
    assert PutString(s) + rest == PutInt(|s|) + (s + rest);
    assert (s + rest)[..|s|] == s && (s + rest)[|s|..] == rest;
  }

  /** What is stored: a string behind its length in four bytes, a number behind the count of its bits in two, each
      big-endian. */
  lemma StoredForms(s: seq<byte>, v: nat)
    requires |s| < 0x1_0000_0000
    ensures BnValue(PutString(s)[..4]) == |s| && PutString(s)[4..] == s
    ensures BnValue(PutBignum(v)[..2]) == NumBits(v) % 0x1_0000 && BnValue(PutBignum(v)[2..]) == v
  {
    hide Put16, Put32, NumBits, BnBytes;
    BigEndian(|s|, []);
    BigEndian(NumBits(v), []);
    ValueOfBytes(v);
    assert PutString(s)[..4] == Put32(|s|);
    assert PutBignum(v)[..2] == Put16(NumBits(v)) && PutBignum(v)[2..] == BnBytes(v);
  }

  /** What the retrieval finds in the two-byte field and after it. */
  lemma BignumLayout(v: nat, rest: seq<byte>)
    ensures var q := PutBignum(v) + rest;
      && |q| >= 2 && q[2..] == BnBytes(v) + rest && |BnBytes(v)| == (NumBits(v) + 7) / 8
      && Get16(q[..2]) == NumBits(v) % 0x1_0000
  {
    hide Get16, Put16, NumBits, BnBytes;
    ByteCount(v);
    GetPut16(NumBits(v), []);
    assert Put16(NumBits(v)) + [] == Put16(NumBits(v));
    assert (PutBignum(v) + rest)[..2] == Put16(NumBits(v));
  }

  lemma BignumFits(v: nat, rest: seq<byte>)
    requires NumBits(v) < 0x1_0000
    ensures GetBignum(PutBignum(v) + rest) == Taken(v, rest)
  {
    hide Get16, Put16, NumBits, BnBytes, BnValue;
    var q, n := PutBignum(v) + rest, |BnBytes(v)|;
    BignumLayout(v, rest);
    ValueOfBytes(v);
    assert q[2..2+n] == q[2..][..n] == BnBytes(v);
    assert q[2+n..] == q[2..][n..] == rest;
  }

  /** A big number comes back, with the rest of the queue, exactly when its bit count fits the two-byte field. */
  lemma BignumRoundTrip(v: nat, rest: seq<byte>)
    ensures GetBignum(PutBignum(v) + rest) == Taken(v, rest) <==> NumBits(v) < 0x1_0000
  {
    hide Get16, Put16, BnBytes, BnValue, NumBits;
    if NumBits(v) < 0x1_0000 {
      BignumFits(v, rest);
    } else {
      var q := PutBignum(v) + rest;
      BignumLayout(v, rest);
      var n := (Get16(q[..2]) + 7) / 8;
      assert n < |BnBytes(v)|;
      if n <= |q| - 2 {
        assert |q[2+n..]| > |rest|;
      }
    }
  }

  // ---------------------------------------------------------------- the operations on a buffer

  method BufferPutInt(b: Buffer, v: nat)
    requires b.Valid() && v < 0x1_0000_0000
    modifies b, b.buf
    ensures b.Valid() && (b.buf == old(b.buf) || fresh(b.buf))
    ensures b.Contents() == old(b.Contents()) + PutInt(v)
  {
    b.Append(Put32(v));
  }

  method BufferPutString(b: Buffer, s: seq<byte>)
    requires b.Valid() && |s| < 0x1_0000_0000
    modifies b, b.buf
    ensures b.Valid() && (b.buf == old(b.buf) || fresh(b.buf))
    ensures b.Contents() == old(b.Contents()) + PutString(s)
  {
    BufferPutInt(b, |s|);
    b.Append(s);
  }

  method BufferPutChar(b: Buffer, c: byte)
    requires b.Valid()
    modifies b, b.buf
    ensures b.Valid() && (b.buf == old(b.buf) || fresh(b.buf))
    ensures b.Contents() == old(b.Contents()) + [c]
  {
    b.Append([c]);
  }

  /** The length check after the conversion cannot fail. */
  method BufferPutBignum(b: Buffer, v: nat)
    requires b.Valid()
    modifies b, b.buf
    ensures b.Valid() && (b.buf == old(b.buf) || fresh(b.buf))
    ensures b.Contents() == old(b.Contents()) + PutBignum(v)
  {
    hide NumBits, BnBytes, Put16;
    var bits := NumBits(v);
    var bin := BnBytes(v);
    ByteCount(v);
    assert |bin| == (bits + 7) / 8;
    b.Append(Put16(bits));
    b.Append(bin);
  }

  method BufferGetInt(b: Buffer) returns (r: Taken<nat>)
    requires b.Valid()
    modifies b
    ensures b.Valid() && b.buf == old(b.buf)
    ensures r == GetInt(old(b.Contents()))
    ensures r.Taken? ==> b.Contents() == r.rest
  {
    var ok, data := b.Get(4);
    if !ok {
      return Fatal;
    }
    r := Taken(Get32(data), b.buf[b.offset..b.end]);
  }

  method BufferGetString(b: Buffer) returns (r: Taken<seq<byte>>)
    requires b.Valid()
    modifies b
    ensures b.Valid() && b.buf == old(b.buf)
    ensures r == GetString(old(b.Contents()))
    ensures r.Taken? ==> b.Contents() == r.rest
  {
    var len := BufferGetInt(b);
    if len.Fatal? || len.value > MAX_STRING {
      return Fatal;
    }
    var ok, data := b.Get(len.value);
    if !ok {
      return Fatal;
    }
    r := Taken(data, b.buf[b.offset..b.end]);
  }

  method BufferGetChar(b: Buffer) returns (r: Taken<byte>)
    requires b.Valid()
    modifies b
    ensures b.Valid() && b.buf == old(b.buf)
    ensures r.Fatal? <==> old(b.Contents()) == []
    ensures r.Taken? ==> [r.value] + r.rest == old(b.Contents()) && b.Contents() == r.rest
  {
    var ok, data := b.Get(1);
    if !ok {
      return Fatal;
    }
    r := Taken(data[0], b.buf[b.offset..b.end]);
  }

  lemma AfterField(q: seq<byte>, n: nat)
    requires |q| >= 2 + n
    ensures q[2..][0..n] == q[2..2+n] && q[2..][n..] == q[2+n..]
  {
  }

  method BufferGetBignum(b: Buffer) returns (r: Taken<nat>)
    requires b.Valid()
    modifies b
    ensures b.Valid() && b.buf == old(b.buf)
    ensures r == GetBignum(old(b.Contents()))
    ensures r.Taken? ==> b.Contents() == r.rest
  {
    hide Get16, BnValue, Buffer.Contents, Buffer.Valid;
    ghost var q := b.Contents();
    var ok, field := b.Get(2);
    if !ok {
      return Fatal;
    }
    var bytes := (Get16(field) + 7) / 8;
    var left := b.Len();
    if left < bytes {
      return Fatal;
    }
    var bin := b.Peek(0, bytes);
    ok := b.Consume(bytes);
    AfterField(q, bytes);
    left := b.Len();
    var rest := b.Peek(0, left);
    assert rest == b.Contents();
    r := Taken(BnValue(bin), rest);
  }
}
