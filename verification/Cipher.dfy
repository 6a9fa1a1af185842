/** The ciphers of cipher.c: SSH's 3DES in inner CBC with a chained pair of initialisation vectors, and Blowfish in CBC
    between byte swaps. DES and Blowfish themselves are arbitrary block permutations. */
module Cipher {
  import opened Wire

  // ---------------------------------------------------------------- exclusive or

  function Xor(a: nat, b: nat): nat
    decreases a + b
  {
    if a == 0 && b == 0 then 0 else 2 * Xor(a / 2, b / 2) + (a + b) % 2
  }

  lemma XorUnfolded(a: nat, b: nat)
    ensures Xor(a, b) == 2 * Xor(a / 2, b / 2) + (a + b) % 2
    ensures Xor(a, b) / 2 == Xor(a / 2, b / 2) && Xor(a, b) % 2 == (a + b) % 2
  {
  }

  lemma {:induction false} XorTwice(a: nat, b: nat)
    ensures Xor(Xor(a, b), b) == a
    decreases a + b
  {
    hide Xor;
    var x := Xor(a, b);
    XorUnfolded(a, b);
    XorUnfolded(x, b);
    if a != 0 || b != 0 {
      XorTwice(a / 2, b / 2);
      assert (x + b) % 2 == a % 2;
    } else {
      XorOfZeros();
    }
  }

  function Bit(a: nat, i: nat): nat {
    if i == 0 then a % 2 else Bit(a / 2, i - 1)
  }

  lemma {:induction false} XorBits(a: nat, b: nat, i: nat)
    ensures Bit(Xor(a, b), i) == (Bit(a, i) + Bit(b, i)) % 2
    decreases i
  {
    hide Xor;
    XorUnfolded(a, b);
    if i > 0 {
      XorBits(a / 2, b / 2, i - 1);
    }
  }

  lemma XorOfZeros()
    ensures Xor(0, 0) == 0
  {
  }

  lemma {:induction false} XorBound(a: nat, b: nat, bound: nat)
    requires a < bound && b < bound && (bound == 1 || bound == 2 || bound == 4 || bound == 8 || bound == 16 ||
                                        bound == 32 || bound == 64 || bound == 128 || bound == 256)
    ensures Xor(a, b) < bound
    decreases bound
  {
    if bound > 1 {
      XorBound(a / 2, b / 2, bound / 2);
    }
  }

  function XorByte(a: byte, b: byte): byte {
    XorBound(a as nat, b as nat, 256);
    Xor(a as nat, b as nat) as byte
  }

  // ---------------------------------------------------------------- blocks

  type Block = s: seq<byte> | |s| == 8 witness [0, 0, 0, 0, 0, 0, 0, 0]

  function XorBlock(a: Block, b: Block): Block {
    seq(8, i requires 0 <= i < 8 => XorByte(a[i], b[i]))
  }

  /** Blocks are added bit by bit. */
  lemma XorBlockBits(a: Block, b: Block, j: nat, i: nat)
    requires j < 8
    ensures Bit(XorBlock(a, b)[j] as nat, i) == (Bit(a[j] as nat, i) + Bit(b[j] as nat, i)) % 2
  {
    hide Xor, Bit;
    XorBits(a[j] as nat, b[j] as nat, i);
  }

  lemma XorBlockTwice(a: Block, b: Block)
    ensures XorBlock(XorBlock(a, b), b) == a
  {
    forall i | 0 <= i < 8
      ensures XorBlock(XorBlock(a, b), b)[i] == a[i]
    {
      XorTwice(a[i] as nat, b[i] as nat);
    }
  }

  /** A keyed block cipher. */
  datatype BlockCipher = BlockCipher(enc: Block -> Block, dec: Block -> Block)

  ghost predicate Permutation(k: BlockCipher) {
    forall b: Block :: k.dec(k.enc(b)) == b && k.enc(k.dec(b)) == b
  }

  // ---------------------------------------------------------------- cipher block chaining

  function CbcEnc(k: BlockCipher, iv: Block, s: seq<byte>): (d: seq<byte>)
    requires |s| % 8 == 0
    ensures |d| == |s|
    decreases |s|
  {
    if s == [] then []
    else
      var c: Block := k.enc(XorBlock(s[..8], iv));
      c + CbcEnc(k, c, s[8..])
  }

  function CbcDec(k: BlockCipher, iv: Block, s: seq<byte>): (d: seq<byte>)
    requires |s| % 8 == 0
    ensures |d| == |s|
    decreases |s|
  {
    if s == [] then [] else XorBlock(k.dec(s[..8]), iv) + CbcDec(k, s[..8], s[8..])
  }

  lemma {:induction false} CbcDecEnc(k: BlockCipher, iv: Block, s: seq<byte>)
    requires |s| % 8 == 0 && Permutation(k)
    ensures CbcDec(k, iv, CbcEnc(k, iv, s)) == s
    decreases |s|
  {
    if s != [] {
      var x: Block := XorBlock(s[..8], iv);
      var c: Block := k.enc(x);
      var d := CbcEnc(k, iv, s);
      assert d[..8] == c && d[8..] == CbcEnc(k, c, s[8..]);
      XorBlockTwice(s[..8], iv);
      CbcDecEnc(k, c, s[8..]);
      assert k.dec(k.enc(x)) == x;
    }
  }

  lemma {:induction false} CbcEncDec(k: BlockCipher, iv: Block, s: seq<byte>)
    requires |s| % 8 == 0 && Permutation(k)
    ensures CbcEnc(k, iv, CbcDec(k, iv, s)) == s
    decreases |s|
  {
    if s != [] {
      var b: Block := s[..8];
      var d := CbcDec(k, iv, s);
      assert d[..8] == XorBlock(k.dec(b), iv) && d[8..] == CbcDec(k, b, s[8..]);
      XorBlockTwice(k.dec(b), iv);
      CbcEncDec(k, b, s[8..]);
      assert k.enc(k.dec(b)) == b;
      assert s == b + s[8..];
    }
  }

  /** A block some way on in what follows the first. */
  lemma BlockFurtherOn(s: seq<byte>, i: nat)
    requires i > 0 && 8 * i + 8 <= |s|
    ensures s[8..][8*(i-1)..8*(i-1)+8] == s[8*i..8*i+8]
    ensures i > 1 ==> s[8..][8*(i-1)-8..8*(i-1)] == s[8*i-8..8*i]
    ensures i == 1 ==> s[..8] == s[8*i-8..8*i]
  {
  }

  lemma CbcEncFirst(k: BlockCipher, iv: Block, s: seq<byte>)
    requires |s| >= 8 && |s| % 8 == 0
    ensures var d := CbcEnc(k, iv, s);
      |d[..8]| == 8 && d[..8] == k.enc(XorBlock(s[..8], iv)) && d[8..] == CbcEnc(k, d[..8], s[8..])
  {
    hide XorBlock;
    var c: Block := k.enc(XorBlock(s[..8], iv));
    assert CbcEnc(k, iv, s)[..8] == c;
  }

  /** Each ciphertext block is the enciphered sum of its plaintext block and the ciphertext block before. */
  lemma {:induction false} CbcEncBlock(k: BlockCipher, iv: Block, s: seq<byte>, i: nat)
    requires |s| % 8 == 0 && 8 * i + 8 <= |s|
    ensures var d := CbcEnc(k, iv, s);
      d[8*i..8*i+8] == k.enc(XorBlock(s[8*i..8*i+8], if i == 0 then iv else d[8*i-8..8*i]))
    decreases i
  {
    hide CbcEnc, XorBlock;
    var d := CbcEnc(k, iv, s);
    CbcEncFirst(k, iv, s);
    if i == 0 {
      assert s[0..8] == s[..8] && d[0..8] == d[..8];
    } else {
      CbcEncBlock(k, d[..8], s[8..], i - 1);
      BlockFurtherOn(s, i);
      BlockFurtherOn(d, i);
    }
  }

  lemma {:induction false} CbcEncAppend(k: BlockCipher, iv: Block, a: seq<byte>, b: seq<byte>)
    requires |a| > 0 && |a| % 8 == 0 && |b| % 8 == 0
    ensures CbcEnc(k, iv, a + b) == CbcEnc(k, iv, a) + CbcEnc(k, LastBlock(CbcEnc(k, iv, a)), b)
    decreases |a|
  {
    var c: Block := k.enc(XorBlock(a[..8], iv));
    assert (a + b)[..8] == a[..8] && (a + b)[8..] == a[8..] + b;
    var d := CbcEnc(k, iv, a);
    assert d[8..] == CbcEnc(k, c, a[8..]);
    if |a| > 8 {
      CbcEncAppend(k, c, a[8..], b);
      assert LastBlock(d) == LastBlock(d[8..]);
    } else {
      assert a[8..] == [] && [] + b == b && LastBlock(d) == c;
      assert d == c;
    }
  }

  lemma {:induction false} CbcDecAppend(k: BlockCipher, iv: Block, a: seq<byte>, b: seq<byte>)
    requires |a| > 0 && |a| % 8 == 0 && |b| % 8 == 0
    ensures CbcDec(k, iv, a + b) == CbcDec(k, iv, a) + CbcDec(k, LastBlock(a), b)
    decreases |a|
  {
    assert (a + b)[..8] == a[..8] && (a + b)[8..] == a[8..] + b;
    var d := CbcDec(k, iv, a);
    if |a| > 8 {
      CbcDecAppend(k, a[..8], a[8..], b);
      assert LastBlock(a) == LastBlock(a[8..]);
      assert d == d[..8] + CbcDec(k, a[..8], a[8..]);
    } else {
      assert a[8..] == [] && [] + b == b && LastBlock(a) == a[..8];
      assert d == XorBlock(k.dec(a[..8]), iv);
    }
  }

  function LastBlock(s: seq<byte>): Block
    requires |s| >= 8
  {
    s[|s|-8..]
  }

  // ---------------------------------------------------------------- byte swapping

  /** The two words of a block, each with its bytes reversed. */
  function SwappedBlock(b: Block): Block {
    [b[3], b[2], b[1], b[0], b[7], b[6], b[5], b[4]]
  }

  function Swapped(s: seq<byte>): (d: seq<byte>)
    requires |s| % 8 == 0
    ensures |d| == |s|
    decreases |s|
  {
    if s == [] then [] else SwappedBlock(s[..8]) + Swapped(s[8..])
  }

  lemma {:induction false} SwappedTwice(s: seq<byte>)
    requires |s| % 8 == 0
    ensures Swapped(Swapped(s)) == s
    decreases |s|
  {
    if s != [] {
      SwappedTwice(s[8..]);
      var d := Swapped(s);
      assert d[..8] == SwappedBlock(s[..8]) && d[8..] == Swapped(s[8..]);
      assert SwappedBlock(SwappedBlock(s[..8])) == s[..8];
    }
  }

  lemma SwappedParts(s: seq<byte>, i: nat)
    requires |s| >= 8 && |s| % 8 == 0 && i < |s|
    ensures Swapped(s)[i] == if i < 8 then SwappedBlock(s[..8])[i] else Swapped(s[8..])[i-8]
  {
    hide SwappedBlock;
  }

  lemma WordSwapped(b: Block, w: nat, j: nat)
    requires w < 2 && j < 4
    ensures SwappedBlock(b)[4 * w + j] == b[4 * w + 3 - j]
  {
  }

  /** Swapping puts the bytes of each word of four in the opposite order. */
  lemma {:induction false} SwappedAt(s: seq<byte>, w: nat, j: nat)
    requires |s| % 8 == 0 && 4 * w + 4 <= |s| && j < 4
    ensures Swapped(s)[4 * w + j] == s[4 * w + 3 - j]
    decreases |s|
  {
    hide Swapped, SwappedBlock;
    SwappedParts(s, 4 * w + j);
    if w >= 2 {
      SwappedAt(s[8..], w - 2, j);
    } else {
      WordSwapped(s[..8], w, j);
    }
  }

  lemma {:induction false} SwappedAppend(a: seq<byte>, b: seq<byte>)
    requires |a| % 8 == 0 && |b| % 8 == 0
    ensures Swapped(a + b) == Swapped(a) + Swapped(b)
    decreases |a|
  {
    hide SwappedBlock;
    if a == [] {
      assert a + b == b;
    } else {
      assert (a + b)[..8] == a[..8] && (a + b)[8..] == a[8..] + b;
      SwappedAppend(a[8..], b);
      var first, rest := SwappedBlock(a[..8]), Swapped(a[8..]);
      assert first + (rest + Swapped(b)) == (first + rest) + Swapped(b);
    }
  }

  // ---------------------------------------------------------------- the cipher state and what it does

  datatype CipherState =
    | NoCipher
    | Des3(key1: BlockCipher, key2: BlockCipher, key3: BlockCipher, iv2: Block, iv3: Block)
    | Blowfish(key: BlockCipher, iv: Block)

  ghost predicate Keyed(st: CipherState) {
    match st
    case NoCipher => true
    case Des3(k1, k2, k3, _, _) => Permutation(k1) && Permutation(k2) && Permutation(k3)
    case Blowfish(k, _) => Permutation(k)
  }

  /** A packet the ciphers accept: a whole, positive number of blocks. */
  predicate WholeBlocks(s: seq<byte>) {
    |s| > 0 && |s| % 8 == 0
  }

  function Encrypted(st: CipherState, s: seq<byte>): (d: seq<byte>)
    requires WholeBlocks(s)
    ensures |d| == |s|
  {
    match st
    case NoCipher => s
    case Des3(k1, k2, k3, iv2, iv3) => CbcEnc(k3, iv3, CbcDec(k2, iv2, CbcEnc(k1, iv2, s)))
    case Blowfish(k, iv) => Swapped(CbcEnc(k, iv, Swapped(s)))
  }

  function AfterEncrypt(st: CipherState, s: seq<byte>): CipherState
    requires WholeBlocks(s)
  {
    match st
    case NoCipher => st
    case Des3(k1, _, _, iv2, _) => st.(iv2 := LastBlock(CbcEnc(k1, iv2, s)), iv3 := LastBlock(Encrypted(st, s)))
    case Blowfish(k, iv) => st.(iv := LastBlock(CbcEnc(k, iv, Swapped(s))))
  }

  function Decrypted(st: CipherState, s: seq<byte>): (d: seq<byte>)
    requires WholeBlocks(s)
    ensures |d| == |s|
  {
    match st
    case NoCipher => s
    case Des3(k1, k2, k3, iv2, iv3) => CbcDec(k1, iv2, CbcEnc(k2, iv2, CbcDec(k3, iv3, s)))
    case Blowfish(k, iv) => Swapped(CbcDec(k, iv, Swapped(s)))
  }

  function AfterDecrypt(st: CipherState, s: seq<byte>): CipherState
    requires WholeBlocks(s)
  {
    match st
    case NoCipher => st
    case Des3(_, k2, k3, iv2, iv3) => st.(iv2 := LastBlock(CbcEnc(k2, iv2, CbcDec(k3, iv3, s))), iv3 := LastBlock(s))
    case Blowfish(_, _) => st.(iv := LastBlock(Swapped(s)))
  }

  /** What triple DES is left with when it decrypts in place: its outer vector is the last block of the first pass. */
  function AfterDecryptInPlace(st: CipherState, s: seq<byte>): CipherState
    requires WholeBlocks(s) && st.Des3?
  {
    var first := CbcDec(st.key3, st.iv3, s);
    st.(iv2 := LastBlock(CbcEnc(st.key2, st.iv2, first)), iv3 := LastBlock(first))
  }

  /** The vector the last block is chained with. */
  function BeforeLast(iv: Block, s: seq<byte>): Block
    requires |s| >= 8
  {
    if |s| < 16 then iv else s[|s|-16..|s|-8]
  }

  lemma {:induction false} LastDecrypted(k: BlockCipher, iv: Block, s: seq<byte>)
    requires WholeBlocks(s)
    ensures LastBlock(CbcDec(k, iv, s)) == XorBlock(k.dec(LastBlock(s)), BeforeLast(iv, s))
    decreases |s|
  {
    var b: Block := s[..8];
    var d := CbcDec(k, iv, s);
    assert d[8..] == CbcDec(k, b, s[8..]);
    if |s| == 8 {
      assert s[8..] == [] && LastBlock(s) == b && LastBlock(d) == d[..8];
    } else {
      LastDecrypted(k, b, s[8..]);
      assert LastBlock(d) == LastBlock(d[8..]) && LastBlock(s) == LastBlock(s[8..]);
      assert BeforeLast(iv, s) == BeforeLast(b, s[8..]);
    }
  }

  /** Decrypting in place keeps in step exactly when the last block of the ciphertext, deciphered by the third key and
      chained with the block before it, is itself again. */
  lemma InPlaceKeepsInStep(st: CipherState, s: seq<byte>)
    requires Keyed(st) && WholeBlocks(s) && st.Des3?
    ensures var c := Encrypted(st, s);
      AfterDecryptInPlace(st, c) == AfterEncrypt(st, s)
      <==> XorBlock(st.key3.dec(LastBlock(c)), BeforeLast(st.iv3, c)) == LastBlock(c)
  {
    hide CbcEnc, CbcDec, Permutation;
    PacketRoundTrip(st, s);
    LastDecrypted(st.key3, st.iv3, Encrypted(st, s));
  }

  /** One packet: the receiver recovers the plaintext, and sender and receiver end with the same vectors. */
  lemma PacketRoundTrip(st: CipherState, s: seq<byte>)
    requires Keyed(st) && WholeBlocks(s)
    ensures Decrypted(st, Encrypted(st, s)) == s
    ensures AfterDecrypt(st, Encrypted(st, s)) == AfterEncrypt(st, s)
  {
    hide CbcEnc, CbcDec, Swapped, Permutation;
    match st
    case NoCipher =>
    case Des3(k1, k2, k3, iv2, iv3) =>
      var d1 := CbcEnc(k1, iv2, s);
      var d2 := CbcDec(k2, iv2, d1);
      CbcDecEnc(k3, iv3, d2);
      CbcEncDec(k2, iv2, d1);
      CbcDecEnc(k1, iv2, s);
    case Blowfish(k, iv) =>
      var c := CbcEnc(k, iv, Swapped(s));
      SwappedTwice(c);
      SwappedTwice(s);
      CbcDecEnc(k, iv, Swapped(s));
  }

  // ---------------------------------------------------------------- what triple DES is

  /** With two equal first keys triple DES is single DES with the third, as its second pass takes back the first. */
  lemma EqualFirstKeys(k: BlockCipher, k3: BlockCipher, iv2: Block, iv3: Block, s: seq<byte>)
    requires Permutation(k) && WholeBlocks(s)
    ensures Encrypted(Des3(k, k, k3, iv2, iv3), s) == CbcEnc(k3, iv3, s)
    ensures Decrypted(Des3(k, k, k3, iv2, iv3), s) == CbcDec(k3, iv3, s)
  {
    hide Permutation;
    CbcDecEnc(k, iv2, s);
    CbcDecEnc(k, iv2, CbcDec(k3, iv3, s));
  }

  /** With two equal last keys and equal vectors it is single DES with the first. */
  lemma EqualLastKeys(k1: BlockCipher, k: BlockCipher, iv: Block, s: seq<byte>)
    requires Permutation(k) && WholeBlocks(s)
    ensures Encrypted(Des3(k1, k, k, iv, iv), s) == CbcEnc(k1, iv, s)
    ensures Decrypted(Des3(k1, k, k, iv, iv), s) == CbcDec(k1, iv, s)
  {
    hide Permutation;
    CbcEncDec(k, iv, CbcEnc(k1, iv, s));
    CbcEncDec(k, iv, s);
  }

  /** What block `i` of triple DES is, the three passes taken together: enciphered, deciphered, enciphered. */
  lemma Des3FirstBlock(k1: BlockCipher, k2: BlockCipher, k3: BlockCipher, iv2: Block, iv3: Block, s: seq<byte>)
    requires WholeBlocks(s)
    ensures Encrypted(Des3(k1, k2, k3, iv2, iv3), s)[..8]
         == k3.enc(XorBlock(XorBlock(k2.dec(k1.enc(XorBlock(s[..8], iv2))), iv2), iv3))
  {
    var d1 := CbcEnc(k1, iv2, s);
    var d2 := CbcDec(k2, iv2, d1);
    assert d1[..8] == k1.enc(XorBlock(s[..8], iv2));
    assert d2[..8] == XorBlock(k2.dec(d1[..8]), iv2);
  }

  lemma LastOfTwo(a: seq<byte>, b: seq<byte>)
    requires |b| >= 8
    ensures LastBlock(a + b) == LastBlock(b)
  {
  }

  lemma Des3EncryptedInPieces(st: CipherState, a: seq<byte>, b: seq<byte>)
    requires st.Des3? && WholeBlocks(a) && WholeBlocks(b) && WholeBlocks(a + b)
    ensures Encrypted(st, a + b) == Encrypted(st, a) + Encrypted(AfterEncrypt(st, a), b)
    ensures AfterEncrypt(st, a + b) == AfterEncrypt(AfterEncrypt(st, a), b)
  {
    hide CbcEnc, CbcDec, LastBlock;
    var a1 := CbcEnc(st.key1, st.iv2, a);
    var b1 := CbcEnc(st.key1, LastBlock(a1), b);
    var a2, b2 := CbcDec(st.key2, st.iv2, a1), CbcDec(st.key2, LastBlock(a1), b1);
    CbcEncAppend(st.key1, st.iv2, a, b);
    CbcDecAppend(st.key2, st.iv2, a1, b1);
    CbcEncAppend(st.key3, st.iv3, a2, b2);
    LastOfTwo(a1, b1);
    LastOfTwo(Encrypted(st, a), Encrypted(AfterEncrypt(st, a), b));
  }

  lemma BlowfishEncryptedInPieces(k: BlockCipher, iv: Block, a: seq<byte>, b: seq<byte>)
    requires WholeBlocks(a) && WholeBlocks(b) && WholeBlocks(a + b)
    ensures var c := CbcEnc(k, iv, Swapped(a)); var d := CbcEnc(k, LastBlock(c), Swapped(b));
      && CbcEnc(k, iv, Swapped(a + b)) == c + d && Swapped(c + d) == Swapped(c) + Swapped(d)
      && LastBlock(c + d) == LastBlock(d)
  {
    hide CbcEnc, Swapped, LastBlock;
    var c := CbcEnc(k, iv, Swapped(a));
    var d := CbcEnc(k, LastBlock(c), Swapped(b));
    SwappedAppend(a, b);
    CbcEncAppend(k, iv, Swapped(a), Swapped(b));
    SwappedAppend(c, d);
    LastOfTwo(c, d);
  }

  /** The vectors carry the chain on: packets enciphered one after another are one long packet. */
  lemma EncryptedInPieces(st: CipherState, a: seq<byte>, b: seq<byte>)
    requires WholeBlocks(a) && WholeBlocks(b) && WholeBlocks(a + b)
    ensures Encrypted(st, a + b) == Encrypted(st, a) + Encrypted(AfterEncrypt(st, a), b)
    ensures AfterEncrypt(st, a + b) == AfterEncrypt(AfterEncrypt(st, a), b)
  {
    hide CbcEnc, CbcDec, Swapped;
    match st
    case NoCipher =>
    case Des3(_, _, _, _, _) => Des3EncryptedInPieces(st, a, b);
    case Blowfish(k, iv) => BlowfishEncryptedInPieces(k, iv, a, b);
  }

  lemma Des3DecryptedInPieces(st: CipherState, a: seq<byte>, b: seq<byte>)
    requires st.Des3? && WholeBlocks(a) && WholeBlocks(b) && WholeBlocks(a + b)
    ensures Decrypted(st, a + b) == Decrypted(st, a) + Decrypted(AfterDecrypt(st, a), b)
    ensures AfterDecrypt(st, a + b) == AfterDecrypt(AfterDecrypt(st, a), b)
  {
    hide CbcEnc, CbcDec, LastBlock;
    var a1, b1 := CbcDec(st.key3, st.iv3, a), CbcDec(st.key3, LastBlock(a), b);
    var a2 := CbcEnc(st.key2, st.iv2, a1);
    var b2 := CbcEnc(st.key2, LastBlock(a2), b1);
    CbcDecAppend(st.key3, st.iv3, a, b);
    CbcEncAppend(st.key2, st.iv2, a1, b1);
    CbcDecAppend(st.key1, st.iv2, a2, b2);
    LastOfTwo(a2, b2);
    LastOfTwo(a, b);
  }

  lemma BlowfishDecryptedInPieces(k: BlockCipher, iv: Block, a: seq<byte>, b: seq<byte>)
    requires WholeBlocks(a) && WholeBlocks(b) && WholeBlocks(a + b)
    ensures var c := CbcDec(k, iv, Swapped(a)); var d := CbcDec(k, LastBlock(Swapped(a)), Swapped(b));
      && CbcDec(k, iv, Swapped(a + b)) == c + d && Swapped(c + d) == Swapped(c) + Swapped(d)
      && LastBlock(Swapped(a + b)) == LastBlock(Swapped(b))
  {
    hide CbcDec, Swapped, LastBlock;
    SwappedAppend(a, b);
    CbcDecAppend(k, iv, Swapped(a), Swapped(b));
    SwappedAppend(CbcDec(k, iv, Swapped(a)), CbcDec(k, LastBlock(Swapped(a)), Swapped(b)));
    LastOfTwo(Swapped(a), Swapped(b));
  }

  lemma DecryptedInPieces(st: CipherState, a: seq<byte>, b: seq<byte>)
    requires WholeBlocks(a) && WholeBlocks(b) && WholeBlocks(a + b)
    ensures Decrypted(st, a + b) == Decrypted(st, a) + Decrypted(AfterDecrypt(st, a), b)
    ensures AfterDecrypt(st, a + b) == AfterDecrypt(AfterDecrypt(st, a), b)
  {
    hide CbcEnc, CbcDec, Swapped;
    match st
    case NoCipher =>
    case Des3(_, _, _, _, _) => Des3DecryptedInPieces(st, a, b);
    case Blowfish(k, iv) => BlowfishDecryptedInPieces(k, iv, a, b);
  }

  // ---------------------------------------------------------------- streams

  function EncryptAll(st: CipherState, packets: seq<seq<byte>>): seq<seq<byte>>
    requires forall i :: 0 <= i < |packets| ==> WholeBlocks(packets[i])
    decreases |packets|
  {
    if packets == [] then []
    else [Encrypted(st, packets[0])] + EncryptAll(AfterEncrypt(st, packets[0]), packets[1..])
  }

  function DecryptAll(st: CipherState, packets: seq<seq<byte>>): seq<seq<byte>>
    requires forall i :: 0 <= i < |packets| ==> WholeBlocks(packets[i])
    decreases |packets|
  {
    if packets == [] then []
    else [Decrypted(st, packets[0])] + DecryptAll(AfterDecrypt(st, packets[0]), packets[1..])
  }

  lemma {:induction false} EncryptAllBlocks(st: CipherState, packets: seq<seq<byte>>)
    requires forall i :: 0 <= i < |packets| ==> WholeBlocks(packets[i])
    ensures |EncryptAll(st, packets)| == |packets|
    ensures forall i :: 0 <= i < |packets| ==> |EncryptAll(st, packets)[i]| == |packets[i]|
    decreases |packets|
  {
    if packets != [] {
      EncryptAllBlocks(AfterEncrypt(st, packets[0]), packets[1..]);
    }
  }

  lemma StaysKeyed(st: CipherState, s: seq<byte>)
    requires Keyed(st) && WholeBlocks(s)
    ensures Keyed(AfterEncrypt(st, s))
  {
    hide Encrypted, Permutation;
  }

  /** Two ends keyed alike stay in step over any sequence of packets: decrypting in order recovers every one. */
  lemma {:induction false} StreamRoundTrip(st: CipherState, packets: seq<seq<byte>>)
    requires Keyed(st) && forall i :: 0 <= i < |packets| ==> WholeBlocks(packets[i])
    ensures |EncryptAll(st, packets)| == |packets|
    ensures forall i :: 0 <= i < |packets| ==> WholeBlocks(EncryptAll(st, packets)[i])
    ensures DecryptAll(st, EncryptAll(st, packets)) == packets
    decreases |packets|
  {
    hide Keyed, Encrypted, Decrypted, AfterEncrypt, AfterDecrypt;
    EncryptAllBlocks(st, packets);
    if packets != [] {
      var st' := AfterEncrypt(st, packets[0]);
      PacketRoundTrip(st, packets[0]);
      StaysKeyed(st, packets[0]);
      StreamRoundTrip(st', packets[1..]);
      assert EncryptAll(st, packets)[1..] == EncryptAll(st', packets[1..]);
    }
  }

  // ---------------------------------------------------------------- the operations

  /** The CBC of the cipher library, which leaves the caller's vector alone. */
  method DesCbcEncrypt(src: array<byte>, dest: array<byte>, len: nat, k: BlockCipher, iv: Block, encrypt: bool)
    requires len <= src.Length && len <= dest.Length && len % 8 == 0
    modifies dest
    ensures dest[..len] == if encrypt then CbcEnc(k, iv, old(src[..len])) else CbcDec(k, iv, old(src[..len]))
    ensures dest[len..] == old(dest[len..])
  {
    var d := if encrypt then CbcEnc(k, iv, src[..len]) else CbcDec(k, iv, src[..len]);
    forall i | 0 <= i < len {
      dest[i] := d[i];
    }
  }

  method SwapBytes(src: array<byte>, dst: array<byte>, n: nat)
    requires n <= src.Length && n <= dst.Length && n % 8 == 0
    modifies dst
    ensures dst[..n] == Swapped(old(src[..n]))
    ensures dst[n..] == old(dst[n..])
  {
    hide Swapped, SwappedBlock;
    ghost var was := src[..n];
    var laps, p := n / 8, 0;
    while laps > 0
      invariant 0 <= p <= n && p + 8 * laps == n && p % 8 == 0
      invariant dst[..p] + Swapped(was[p..]) == Swapped(was)
      invariant src[p..n] == was[p..]
      invariant dst[n..] == old(dst[n..])
    {
      ghost var ahead := src[p..n];
      assert src[p..p+8] == ahead[..8] == was[p..][..8] == was[p..p+8];
      LapSwaps(dst[..p], was, p);
      ghost var later := src[p+8..];
      assert later[..n-p-8] == ahead[8..] == was[p..][8..] == was[p+8..];
      SwapLap(src, dst, p);
      assert src[p+8..n] == later[..n-p-8];
      p := p + 8;
      laps := laps - 1;
    }
    SwappedEmpty(was[p..]);
  }

  lemma LapSwaps(done: seq<byte>, was: seq<byte>, p: nat)
    requires |was| % 8 == 0 && p % 8 == 0 && p + 8 <= |was|
    ensures done + Swapped(was[p..]) == (done + SwappedBlock(was[p..p+8])) + Swapped(was[p+8..])
  {
    var rest := was[p..];
    assert rest[..8] == was[p..p+8] && rest[8..] == was[p+8..];
  }

  lemma SwappedEmpty(s: seq<byte>)
    requires |s| == 0
    ensures Swapped(s) == []
  {
  }

  /** One word: read four bytes, write them back to front. */
  method SwapWord(src: array<byte>, dst: array<byte>, p: nat)
    requires p + 4 <= src.Length && p + 4 <= dst.Length
    modifies dst
    ensures dst[p..p+4] == [old(src[p+3]), old(src[p+2]), old(src[p+1]), old(src[p])]
    ensures dst[..p] == old(dst[..p]) && dst[p+4..] == old(dst[p+4..]) && src[p+4..] == old(src[p+4..])
  {
    dst[p], dst[p+1], dst[p+2], dst[p+3] := src[p+3], src[p+2], src[p+1], src[p];
  }

  method SwapLap(src: array<byte>, dst: array<byte>, p: nat)
    requires p + 8 <= src.Length && p + 8 <= dst.Length
    modifies dst
    ensures dst[..p+8] == old(dst[..p]) + SwappedBlock(old(src[p..p+8]))
    ensures dst[p+8..] == old(dst[p+8..]) && src[p+8..] == old(src[p+8..])
  {
    ghost var b := src[p..p+8];
    ghost var after := src[p+4..];
    SwapWord(src, dst, p);
    assert forall i :: 4 <= i < 8 ==> src[p+i] == after[i-4] == b[i];
    ghost var first := dst[..p+4];
    assert first == old(dst[..p]) + dst[p..p+4];
    SwapWord(src, dst, p + 4);
    assert dst[..p+8] == first + dst[p+4..p+8];
  }

  class CipherContext {
    var state: CipherState

    constructor ()
      ensures state.NoCipher?
    {
      state := NoCipher;
    }

    method Ssh3CbcEncrypt(dest: array<byte>, src: array<byte>, len: nat)
      requires state.Des3? && len <= src.Length && len <= dest.Length && len > 0 && len % 8 == 0
      modifies this, dest
      ensures dest[..len] == Encrypted(old(state), old(src[..len])) && dest[len..] == old(dest[len..])
      ensures state == AfterEncrypt(old(state), old(src[..len]))
    {
      var iv1 := state.iv2;
      DesCbcEncrypt(src, dest, len, state.key1, iv1, true);
      iv1 := dest[len-8..len];
      assert iv1 == LastBlock(dest[..len]);
      DesCbcEncrypt(dest, dest, len, state.key2, state.iv2, false);
      state := state.(iv2 := iv1);
      DesCbcEncrypt(dest, dest, len, state.key3, state.iv3, true);
      state := state.(iv3 := dest[len-8..len]);
      assert dest[len-8..len] == LastBlock(dest[..len]);
    }

    /** The plaintext comes out right even in place, but then the next vector is taken from what the first pass has left
        where the ciphertext was. */
    method Ssh3CbcDecrypt(dest: array<byte>, src: array<byte>, len: nat)
      requires state.Des3? && len <= src.Length && len <= dest.Length && len > 0 && len % 8 == 0
      modifies this, dest
      ensures dest[..len] == Decrypted(old(state), old(src[..len])) && dest[len..] == old(dest[len..])
      ensures state == if src != dest then AfterDecrypt(old(state), old(src[..len]))
                       else AfterDecryptInPlace(old(state), old(src[..len]))
    {
      var iv1 := state.iv2;
      DesCbcEncrypt(src, dest, len, state.key3, state.iv3, false);
      state := state.(iv3 := src[len-8..len]);
      assert src[len-8..len] == LastBlock(src[..len]);
      DesCbcEncrypt(dest, dest, len, state.key2, state.iv2, true);
      state := state.(iv2 := dest[len-8..len]);
      assert dest[len-8..len] == LastBlock(dest[..len]);
      DesCbcEncrypt(dest, dest, len, state.key1, iv1, false);
    }

    /** A length that is not a multiple of eight is fatal; with nothing to do, only triple DES would do something. */
    method CipherEncrypt(dest: array<byte>, src: array<byte>, len: nat) returns (ok: bool)
      requires len <= src.Length && len <= dest.Length && (state.Des3? ==> len > 0)
      modifies this, dest
      ensures ok == (len % 8 == 0)
      ensures ok && len == 0 ==> dest[..] == old(dest[..]) && state == old(state)
      ensures ok && len > 0 ==>
        && dest[..len] == Encrypted(old(state), old(src[..len])) && dest[len..] == old(dest[len..])
        && state == AfterEncrypt(old(state), old(src[..len]))
    {
      if len % 8 != 0 {
        return false;
      }
      ok := true;
      if len == 0 {
        return;
      }
      match state {
        case NoCipher =>
          forall i | 0 <= i < len {
            dest[i] := src[i];
          }
        case Des3(_, _, _, _, _) =>
          Ssh3CbcEncrypt(dest, src, len);
        case Blowfish(key, iv) =>
          SwapBytes(src, dest, len);
          DesCbcEncrypt(dest, dest, len, key, iv, true);
          state := state.(iv := dest[len-8..len]);
          assert dest[len-8..len] == LastBlock(dest[..len]);
          SwapBytes(dest, dest, len);
      }
    }

    method CipherDecrypt(dest: array<byte>, src: array<byte>, len: nat) returns (ok: bool)
      requires len <= src.Length && len <= dest.Length && (state.Des3? ==> len > 0)
      modifies this, dest
      ensures ok == (len % 8 == 0)
      ensures ok && len > 0 ==>
        && dest[..len] == Decrypted(old(state), old(src[..len])) && dest[len..] == old(dest[len..])
        && state == if src == dest && old(state).Des3? then AfterDecryptInPlace(old(state), old(src[..len]))
                    else AfterDecrypt(old(state), old(src[..len]))
      ensures ok && len == 0 ==> dest[..] == old(dest[..]) && state == old(state)
    {
      if len % 8 != 0 {
        return false;
      }
      ok := true;
      if len == 0 {
        return;
      }
      match state {
        case NoCipher =>
          forall i | 0 <= i < len {
            dest[i] := src[i];
          }
        case Des3(_, _, _, _, _) =>
          Ssh3CbcDecrypt(dest, src, len);
        case Blowfish(key, iv) =>
          SwapBytes(src, dest, len);
          var last := dest[len-8..len];
          assert last == LastBlock(dest[..len]);
          DesCbcEncrypt(dest, dest, len, key, iv, false);
          state := state.(iv := last);
          SwapBytes(dest, dest, len);
      }
    }
  }
}
