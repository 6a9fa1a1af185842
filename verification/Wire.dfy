/** Bytes, and the big-endian integers of getput.h. */
module Wire {
  newtype byte = x: int | 0 <= x < 256

  function Put32(n: nat): (s: seq<byte>)
    requires n < 0x1_0000_0000
    ensures |s| == 4
  {
    [(n / 0x100_0000) as byte, (n / 0x1_0000 % 0x100) as byte, (n / 0x100 % 0x100) as byte, (n % 0x100) as byte]
  }

  function Get32(s: seq<byte>): (n: nat)
    requires |s| >= 4
    ensures n < 0x1_0000_0000
  {
    s[0] as nat * 0x100_0000 + s[1] as nat * 0x1_0000 + s[2] as nat * 0x100 + s[3] as nat
  }

  /** PUT_16BIT keeps the low sixteen bits. */
  function Put16(n: nat): (s: seq<byte>)
    ensures |s| == 2
  {
    [(n / 0x100 % 0x100) as byte, (n % 0x100) as byte]
  }

  function Get16(s: seq<byte>): (n: nat)
    requires |s| >= 2
    ensures n < 0x1_0000
  {
    s[0] as nat * 0x100 + s[1] as nat
  }

  lemma Digits(n: nat)
    requires n < 0x1_0000_0000
    ensures n / 0x100_0000 < 0x100
    ensures n == (n / 0x100_0000) * 0x100_0000 + (n / 0x1_0000 % 0x100) * 0x1_0000
                 + (n / 0x100 % 0x100) * 0x100 + n % 0x100
  {
    assert n / 0x100 == (n / 0x1_0000) * 0x100 + n / 0x100 % 0x100;
    assert n / 0x1_0000 == (n / 0x100_0000) * 0x100 + n / 0x1_0000 % 0x100;
  }

  lemma GetPut32(n: nat, rest: seq<byte>)
    requires n < 0x1_0000_0000
    ensures Get32(Put32(n) + rest) == n && Get32(Put32(n)) == n
  {
    Digits(n);
  }

  lemma GetPut16(n: nat, rest: seq<byte>)
    ensures Get16(Put16(n) + rest) == n % 0x1_0000
  {
    assert n % 0x1_0000 == (n / 0x100 % 0x100) * 0x100 + n % 0x100;
  }
}
