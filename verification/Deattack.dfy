/** The CRC compensation attack detector of deattack.c, called without an initialisation vector. Its open-addressing
    table must find what a quadratic scan finds. */
module Deattack {
  import opened Wire
  import Crc32

  const SSH_MAXBLOCKS: nat := 32 * 1024
  const HASH_MINBLOCKS: nat := 7 * 8
  const HASH_UNUSED: nat := 0xffff

  datatype Verdict = Unremarkable | Attack | BadSize

  function HashFactor(blocks: nat): nat {
    blocks * 3 / 2
  }

  /** The size the growing loop comes to, starting from `l`. */
  function TableSize(l: nat, need: nat): nat
    requires l > 0
    decreases need - l
  {
    if l < need then TableSize(4 * l, need) else l
  }

  /** In the sixteen bits the program keeps it in, the size of the table is zero exactly when more than 16384 cells are
      needed: for every packet of more than 10923 blocks, which the length checks admit. */
  lemma TableSizeWraps(n: nat, blocks: nat)
    requires (n == 4096 || n == 16384) && blocks <= SSH_MAXBLOCKS
    ensures TableSize(n, HashFactor(blocks)) % 0x1_0000 == 0 <==> HashFactor(blocks) > 16384
    ensures HashFactor(blocks) > 16384 <==> blocks > 10923
  {
    var need := HashFactor(blocks);
    assert need <= 65536;
    assert TableSize(65536, need) == 65536;
    assert TableSize(16384, need) == if 16384 < need then 65536 else 16384;
    assert TableSize(4096, need) == if 4096 < need then TableSize(16384, need) else 4096;
  }

  /** The size after `laps` rounds of the growing loop, in the 32 bits the loop works in. */
  function Shifted(l: nat, laps: nat): nat {
    if laps == 0 then l else Shifted(l, laps - 1) * 4 % 0x1_0000_0000
  }

  lemma {:induction false} ShiftedFirst(l: nat, laps: nat)
    ensures Shifted(l, laps + 1) == Shifted(l * 4 % 0x1_0000_0000, laps)
  {
    if laps > 0 {
      ShiftedFirst(l, laps - 1);
    }
  }

  lemma {:induction false} ReachesNeed(l: nat, need: nat) returns (laps: nat)
    requires 0 < l < 0x4_0000 && need <= 0x1_0000
    ensures Shifted(l, laps) == TableSize(l, need) >= need
    decreases need - l
  {
    if l >= need {
      laps := 0;
    } else {
      var rest := ReachesNeed(4 * l, need);
      ShiftedFirst(l, rest);
      laps := rest + 1;
    }
  }

  lemma {:induction false} NothingShifted(laps: nat)
    ensures Shifted(0, laps) == 0
  {
    if laps > 0 {
      NothingShifted(laps - 1);
    }
  }

  /** From a size kept in sixteen bits the growing loop comes to what is needed exactly when the size is not zero, or
      there is no block at all: after a size that wrapped, the next packet is never scanned. */
  lemma GrowingEnds(l: nat, blocks: nat)
    requires l < 0x1_0000 && blocks <= SSH_MAXBLOCKS
    ensures (exists laps :: Shifted(l, laps) >= HashFactor(blocks)) <==> l > 0 || blocks == 0
  {
    if l > 0 {
      var laps := ReachesNeed(l, HashFactor(blocks));
    } else {
      forall laps: nat
        ensures Shifted(l, laps) == 0
      {
        NothingShifted(laps);
      }
      assert blocks == 0 ==> Shifted(l, 0) >= HashFactor(blocks);
    }
  }

  function BlockAt(s: seq<byte>, k: nat): (b: seq<byte>)
    requires 8 * k + 8 <= |s|
    ensures |b| == 8
  {
    s[8*k..8*k+8]
  }

  // ---------------------------------------------------------------- the checksum of a pattern

  /** The word is summed in the byte order of the machine, low byte first. */
  function CrcUpdate(a: bv32, b: bv32): bv32 {
    Crc32.ShiftRegister(Crc32.WordBytes(b ^ a))
  }

  /** The checksum over the first `k` blocks, an equal block counting as one and any other as zero. */
  function PatternCrc(block: seq<byte>, s: seq<byte>, k: nat): bv32
    requires 8 * k <= |s|
  {
    if k == 0 then 0
    else CrcUpdate(CrcUpdate(PatternCrc(block, s, k - 1), if BlockAt(s, k - 1) == block then 1 else 0), 0)
  }

  /** The pattern of a block in the first `k` blocks of a packet: for each of them a word, one if it is equal and zero
      if not, and a zero word. */
  function Pattern(block: seq<byte>, s: seq<byte>, k: nat): seq<bv8>
    requires 8 * k <= |s|
  {
    if k == 0 then []
    else Pattern(block, s, k - 1) + [if BlockAt(s, k - 1) == block then 1 else 0, 0, 0, 0] + [0, 0, 0, 0]
  }

  lemma UpdateAppends(t: seq<bv8>, w: bv32, bytes: seq<bv8>)
    requires bytes == Crc32.WordBytes(w)
    ensures CrcUpdate(Crc32.ShiftRegister(t), w) == Crc32.ShiftRegister(t + bytes)
  {
    hide Crc32.ShiftRegister, Crc32.WordBytes;
    Crc32.WordAppended(t, w);
  }

  lemma SmallWords()
    ensures Crc32.WordBytes(0) == [0, 0, 0, 0] && Crc32.WordBytes(1) == [1, 0, 0, 0]
  {
  }

  /** What the detector sums is the checksum of the pattern. */
  lemma {:induction false} PatternIsSummed(block: seq<byte>, s: seq<byte>, k: nat)
    requires 8 * k <= |s|
    ensures PatternCrc(block, s, k) == Crc32.ShiftRegister(Pattern(block, s, k))
  {
    hide CrcUpdate, BlockAt, Crc32.ShiftRegister, Crc32.WordBytes;
    if k > 0 {
      PatternIsSummed(block, s, k - 1);
      SmallWords();
      var before, bit: bv32 := Pattern(block, s, k - 1), if BlockAt(s, k - 1) == block then 1 else 0;
      var byte: bv8 := if BlockAt(s, k - 1) == block then 1 else 0;
      UpdateAppends(before, bit, [byte, 0, 0, 0]);
      UpdateAppends(before + [byte, 0, 0, 0], 0, [0, 0, 0, 0]);
    } else {
      Crc32.EmptyRegister();
    }
  }

  predicate CrcVanishes(block: seq<byte>, s: seq<byte>) {
    PatternCrc(block, s, |s| / 8) == 0
  }

  /** An equal block is an attack exactly when the CRC-32 of its pattern in the packet is zero. */
  lemma VanishesExactly(block: seq<byte>, s: seq<byte>)
    ensures CrcVanishes(block, s) <==> Crc32.ShiftRegister(Pattern(block, s, |s| / 8)) == 0
  {
    hide Crc32.ShiftRegister, Pattern, PatternCrc;
    PatternIsSummed(block, s, |s| / 8);
  }

  // ---------------------------------------------------------------- what is to be detected

  predicate Repeats(s: seq<byte>, k: nat)
    requires 8 * k + 8 <= |s|
  {
    exists d :: 0 <= d < k && BlockAt(s, d) == BlockAt(s, k)
  }

  predicate AttackAt(s: seq<byte>, k: nat)
    requires 8 * k + 8 <= |s|
  {
    Repeats(s, k) && CrcVanishes(BlockAt(s, k), s)
  }

  function VerdictOf(s: seq<byte>): Verdict {
    if |s| > SSH_MAXBLOCKS * 8 || |s| % 8 != 0 then BadSize
    else if exists k :: 0 <= k < |s| / 8 && AttackAt(s, k) then Attack
    else Unremarkable
  }

  lemma UpdateZero(a: bv32, b: bv32)
    ensures CrcUpdate(a, b) == 0 <==> a == b
  {
    hide Crc32.ShiftRegister, Crc32.WordBytes;
    Crc32.WordChecksumZero(b ^ a);
    assert b ^ a == 0 <==> a == b;
  }

  /** The number of blocks among the first `k` that equal `block`. */
  function Occurrences(block: seq<byte>, s: seq<byte>, k: nat): nat
    requires 8 * k <= |s|
  {
    if k == 0 then 0 else Occurrences(block, s, k - 1) + if BlockAt(s, k - 1) == block then 1 else 0
  }

  /** A pattern with a single one in it never sums to zero, and one without any always does. */
  lemma {:induction false} SingleOccurrence(block: seq<byte>, s: seq<byte>, k: nat)
    requires 8 * k <= |s| && Occurrences(block, s, k) <= 1
    ensures PatternCrc(block, s, k) == 0 <==> Occurrences(block, s, k) == 0
  {
    hide CrcUpdate, BlockAt;
    if k > 0 {
      SingleOccurrence(block, s, k - 1);
      var before, bit: bv32 := PatternCrc(block, s, k - 1), if BlockAt(s, k - 1) == block then 1 else 0;
      UpdateZero(before, bit);
      UpdateZero(CrcUpdate(before, bit), 0);
    }
  }

  /** Of the blocks equal to one that occurs more than once, the last is a repetition. */
  lemma {:induction false} LastOccurrence(block: seq<byte>, s: seq<byte>, k: nat) returns (c: nat, first: nat)
    requires 8 * k <= |s| && Occurrences(block, s, k) >= 2
    ensures first < c < k && BlockAt(s, c) == block && BlockAt(s, first) == block
  {
    hide BlockAt;
    if BlockAt(s, k - 1) == block {
      c := k - 1;
      first := FirstOccurrence(block, s, k - 1);
    } else {
      c, first := LastOccurrence(block, s, k - 1);
    }
  }

  lemma {:induction false} FirstOccurrence(block: seq<byte>, s: seq<byte>, k: nat) returns (c: nat)
    requires 8 * k <= |s| && Occurrences(block, s, k) >= 1
    ensures c < k && BlockAt(s, c) == block
  {
    hide BlockAt;
    if BlockAt(s, k - 1) == block {
      c := k - 1;
    } else {
      c := FirstOccurrence(block, s, k - 1);
    }
  }

  lemma {:induction false} OccursAt(block: seq<byte>, s: seq<byte>, k: nat, i: nat)
    requires i < k && 8 * k <= |s| && BlockAt(s, i) == block
    ensures Occurrences(block, s, k) >= 1
  {
    hide BlockAt;
    if i < k - 1 {
      OccursAt(block, s, k - 1, i);
    }
  }

  /** Searching for duplicates changes no verdict: a packet is an attack exactly when the pattern of some block in it
      sums to zero, for a block that occurs once never does. */
  lemma SearchOnlySavesWork(s: seq<byte>)
    requires |s| <= SSH_MAXBLOCKS * 8 && |s| % 8 == 0
    ensures VerdictOf(s) == Attack <==> exists k :: 0 <= k < |s| / 8 && CrcVanishes(BlockAt(s, k), s)
  {
    hide PatternCrc, BlockAt;
    var n := |s| / 8;
    if k :| 0 <= k < n && CrcVanishes(BlockAt(s, k), s) {
      var block := BlockAt(s, k);
      OccursAt(block, s, n, k);
      if Occurrences(block, s, n) == 1 {
        SingleOccurrence(block, s, n);
      }
      var c, first := LastOccurrence(block, s, n);
      assert Repeats(s, c) && AttackAt(s, c);
    }
  }

  /** The verdict, told without the search: over 256 KiB or a broken block, the CRC-32 of the pattern of some block
      being zero, or neither. */
  lemma VerdictByChecksum(s: seq<byte>)
    ensures VerdictOf(s) ==
            if |s| > 0x4_0000 || |s| % 8 != 0 then BadSize
            else if exists k :: && 0 <= k < |s| / 8
                                && Crc32.ShiftRegister(Pattern(BlockAt(s, k), s, |s| / 8)) == 0
            then Attack else Unremarkable
  {
    hide Crc32.ShiftRegister, Pattern, CrcVanishes, AttackAt;
    if |s| <= 0x4_0000 && |s| % 8 == 0 {
      SearchOnlySavesWork(s);
      forall k | 0 <= k < |s| / 8
        ensures CrcVanishes(BlockAt(s, k), s)
            <==> Crc32.ShiftRegister(Pattern(BlockAt(s, k), s, |s| / 8)) == 0
      {
        VanishesExactly(BlockAt(s, k), s);
      }
    }
  }

  // ---------------------------------------------------------------- the table

  /** The next cell to probe; masking with `n - 1` wraps around, `n` being a power of two. */
  function NextCell(i: nat, n: nat): nat
    requires i < n
  {
    if i + 1 == n then 0 else i + 1
  }

  /** The cell `t` probes after the one at `home`. */
  function Cell(home: nat, t: nat, n: nat): (i: nat)
    requires home < n
    ensures i < n
  {
    if t == 0 then home else NextCell(Cell(home, t - 1, n), n)
  }

  /** The cell a block hashes to. */
  function Home(s: seq<byte>, k: nat, n: nat): (i: nat)
    requires 8 * k + 8 <= |s| && n > 0
    ensures i < n
  {
    Get32(BlockAt(s, k)) % n
  }

  /** Probing from `home` meets only cells in use up to the one `t` probes on. */
  ghost predicate Chained(h: seq<nat>, home: nat, t: nat)
    requires home < |h|
  {
    forall u :: 0 <= u <= t ==> h[Cell(home, u, |h|)] != HASH_UNUSED
  }

  ghost predicate Reaches(h: seq<nat>, s: seq<byte>, d: nat, t: nat)
    requires |h| > 0 && 8 * d + 8 <= |s|
    requires forall i :: 0 <= i < |h| ==> h[i] == HASH_UNUSED || 8 * h[i] + 8 <= |s|
  {
    Chained(h, Home(s, d, |h|), t) && BlockAt(s, h[Cell(Home(s, d, |h|), t, |h|)]) == BlockAt(s, d)
  }

  ghost predicate Found(h: seq<nat>, s: seq<byte>, d: nat)
    requires |h| > 0 && 8 * d + 8 <= |s|
    requires forall i :: 0 <= i < |h| ==> h[i] == HASH_UNUSED || 8 * h[i] + 8 <= |s|
  {
    exists t: nat :: Reaches(h, s, d, t)
  }

  /** The cells hold indices below `j`, and probing for any block before `j` reaches an equal one. */
  ghost predicate TableOk(h: seq<nat>, s: seq<byte>, j: nat) {
    && |h| > 0 && 8 * j <= |s| && j <= HASH_UNUSED
    && (forall i :: 0 <= i < |h| ==> h[i] == HASH_UNUSED || h[i] < j)
    && (forall d :: 0 <= d < j ==> Found(h, s, d))
  }

  /** An unsuccessful probe that ends in a free cell means there is no earlier equal block. */
  lemma ProbeIsComplete(h: seq<nat>, s: seq<byte>, j: nat, m: nat)
    requires TableOk(h, s, j) && 8 * j + 8 <= |s|
    requires h[Cell(Home(s, j, |h|), m, |h|)] == HASH_UNUSED
    requires forall u :: 0 <= u < m ==>
      var i := h[Cell(Home(s, j, |h|), u, |h|)]; i != HASH_UNUSED && BlockAt(s, i) != BlockAt(s, j)
    ensures !Repeats(s, j)
  {
    hide BlockAt;
    forall d | 0 <= d < j
      ensures BlockAt(s, d) != BlockAt(s, j)
    {
      assert Found(h, s, d);
      var t: nat :| Reaches(h, s, d, t);
    }
  }

  /** What was found is still found after an entry in a free cell or over an equal block. */
  lemma StillReaches(h: seq<nat>, s: seq<byte>, d: nat, t: nat, i: nat, j: nat)
    requires i < |h| && 8 * d + 8 <= |s| && 8 * j + 8 <= |s| && j != HASH_UNUSED
    requires forall i :: 0 <= i < |h| ==> h[i] == HASH_UNUSED || 8 * h[i] + 8 <= |s|
    requires Reaches(h, s, d, t) && (h[i] == HASH_UNUSED || BlockAt(s, h[i]) == BlockAt(s, j))
    ensures Reaches(h[i := j], s, d, t)
  {
    hide BlockAt, Cell, Home;
  }

  lemma NewReaches(h: seq<nat>, s: seq<byte>, j: nat, m: nat)
    requires |h| > 0 && 8 * j + 8 <= |s| && j != HASH_UNUSED
    requires forall i :: 0 <= i < |h| ==> h[i] == HASH_UNUSED || 8 * h[i] + 8 <= |s|
    requires forall u :: 0 <= u < m ==> h[Cell(Home(s, j, |h|), u, |h|)] != HASH_UNUSED
    ensures Reaches(h[Cell(Home(s, j, |h|), m, |h|) := j], s, j, m)
  {
    hide BlockAt, Cell, Home;
  }

  /** Entering a block in the free cell its probe ends in, or over an equal one, keeps the table usable. */
  lemma StoreKeepsTable(h: seq<nat>, s: seq<byte>, j: nat, m: nat)
    requires TableOk(h, s, j) && 8 * j + 8 <= |s| && j < HASH_UNUSED
    requires forall u :: 0 <= u < m ==> h[Cell(Home(s, j, |h|), u, |h|)] != HASH_UNUSED
    requires var i := h[Cell(Home(s, j, |h|), m, |h|)]; i == HASH_UNUSED || BlockAt(s, i) == BlockAt(s, j)
    ensures TableOk(h[Cell(Home(s, j, |h|), m, |h|) := j], s, j + 1)
  {
    hide BlockAt, Cell, Home, Reaches;
    var i := Cell(Home(s, j, |h|), m, |h|);
    var h' := h[i := j];
    assert forall c :: 0 <= c < |h| && h'[c] != HASH_UNUSED ==> h'[c] == j || h'[c] == h[c] < j;
    forall d | 0 <= d < j + 1
      ensures Found(h', s, d)
    {
      if d == j {
        NewReaches(h, s, j, m);
      } else {
        assert Found(h, s, d);
        var t: nat :| Reaches(h, s, d, t);
        StillReaches(h, s, d, t, i, j);
      }
    }
  }

  lemma CellsBelow(h: seq<nat>, s: seq<byte>, j: nat, i: nat)
    requires TableOk(h, s, j) && i < |h|
    ensures h[i] == HASH_UNUSED || h[i] < j
  {
  }

  lemma EmptyTable(h: seq<nat>, s: seq<byte>)
    requires |h| > 0 && forall i :: 0 <= i < |h| ==> h[i] == HASH_UNUSED
    ensures TableOk(h, s, 0)
  {
  }

  // ---------------------------------------------------------------- a free cell remains

  function Cells(n: nat): (c: set<nat>)
    ensures |c| == n && forall i: nat :: i in c <==> i < n
  {
    if n == 0 then {} else Cells(n - 1) + {n - 1}
  }

  ghost function Used(h: seq<nat>): set<nat> {
    set i: nat | 0 <= i < |h| && h[i] != HASH_UNUSED
  }

  lemma FreeCell(h: seq<nat>) returns (f: nat)
    requires |Used(h)| < |h|
    ensures f < |h| && h[f] == HASH_UNUSED
  {
    if Cells(|h|) <= Used(h) {
      Subset(Cells(|h|), Used(h));
    }
    f :| f in Cells(|h|) && f !in Used(h);
  }

  lemma Subset(a: set<nat>, b: set<nat>)
    requires a <= b
    ensures |a| <= |b|
  {
    assert b == a + (b - a);
  }

  lemma UsedAfterStore(h: seq<nat>, i: nat, j: nat)
    requires i < |h| && j != HASH_UNUSED
    ensures |Used(h[i := j])| <= |Used(h)| + 1
  {
    assert Used(h[i := j]) == Used(h) + {i};
  }

  lemma {:induction false} CellIs(home: nat, t: nat, n: nat)
    requires home < n && t < n
    ensures Cell(home, t, n) == if home + t < n then home + t else home + t - n
  {
    if t > 0 {
      CellIs(home, t - 1, n);
    }
  }

  /** Every cell is met within one turn around the table. */
  lemma DistanceTo(home: nat, f: nat, n: nat) returns (u: nat)
    requires f < n && home < n
    ensures u < n && Cell(home, u, n) == f
  {
    u := if f >= home then f - home else f + n - home;
    CellIs(home, u, n);
  }

  // ---------------------------------------------------------------- the operations

  lemma BlockOf(buf: array<byte>, len: nat, k: nat)
    requires len <= buf.Length && 8 * k + 8 <= len
    ensures buf[8*k..8*k+8] == BlockAt(buf[..len], k)
  {
  }

  method CheckCrc(block: seq<byte>, buf: array<byte>, len: nat) returns (r: bool)
    requires len <= buf.Length && len % 8 == 0
    ensures r == CrcVanishes(block, buf[..len])
  {
    hide CrcUpdate;
    ghost var s := buf[..len];
    var crc: bv32 := 0;
    var c := 0;
    ghost var k := 0;
    while c < len
      invariant c == 8 * k && c <= len && crc == PatternCrc(block, s, k)
    {
      BlockOf(buf, len, k);
      if buf[c..c+8] == block {
        crc := CrcUpdate(crc, 1);
        crc := CrcUpdate(crc, 0);
      } else {
        crc := CrcUpdate(crc, 0);
        crc := CrcUpdate(crc, 0);
      }
      c := c + 8;
      k := k + 1;
    }
    return crc == 0;
  }

  /** A detector: the table and its size are kept from call to call. */
  class Detector {
    var h: array?<nat>
    var n: nat

    ghost predicate Valid()
      reads this
    {
      (n == 4096 || n == 16384) && (if h == null then n == 4096 else h.Length == n)
    }

    constructor ()
      ensures Valid() && h == null
    {
      h, n := null, 4096;
    }

    /** Makes the table large enough for `blocks` blocks, four times as large at a time. The size is kept in sixteen
        bits, and beyond 16384 cells nothing of it is left. */
    method Resize(blocks: nat)
      requires Valid() && blocks <= SSH_MAXBLOCKS
      modifies this
      ensures h != null && h.Length == n && (h == old(h) || fresh(h))
      ensures if HashFactor(blocks) <= 16384 then Valid() && HashFactor(blocks) <= n else n == 0
      ensures n == TableSize(old(n), HashFactor(blocks)) % 0x1_0000
    {
      var l := n;
      while l < HashFactor(blocks)
        invariant l == 4096 || l == 16384 || l == 65536
        invariant n <= l && TableSize(l, HashFactor(blocks)) == TableSize(n, HashFactor(blocks))
        decreases 65536 - l
      {
        l := l * 4;
      }
      if h == null || l > n {
        n := l % 0x1_0000;
        h := new nat[n];
      }
    }

    /** The quadratic scan of a short packet. */
    method ShortScan(buf: array<byte>, len: nat) returns (v: Verdict)
      requires len <= buf.Length && len % 8 == 0 && len <= HASH_MINBLOCKS
      ensures v == VerdictOf(buf[..len])
    {
      hide CrcVanishes, BlockAt;
      ghost var s := buf[..len];
      var c := 0;
      ghost var k := 0;
      while c < len
        invariant c == 8 * k && c <= len
        invariant forall i :: 0 <= i < k ==> !AttackAt(s, i)
      {
        BlockOf(buf, len, k);
        var d := 0;
        ghost var e := 0;
        while d < c
          invariant d == 8 * e && d <= c
          invariant forall i :: 0 <= i < e ==> BlockAt(s, i) != BlockAt(s, k)
        {
          BlockOf(buf, len, e);
          if buf[c..c+8] == buf[d..d+8] {
            var vanishes := CheckCrc(buf[c..c+8], buf, len);
            assert Repeats(s, k);
            if vanishes {
              assert AttackAt(s, k);
              return Attack;
            }
            break;
          }
          d := d + 8;
          e := e + 1;
        }
        c := c + 8;
        k := k + 1;
      }
      return Unremarkable;
    }

    /** Probes for the block at `c`: the cell where the probe ends holds the index of an equal block or is free. */
    method Probe(buf: array<byte>, len: nat, c: nat, ghost j: nat) returns (i: nat, ghost t: nat)
      requires Valid() && h != null && len <= buf.Length && c + 8 <= len && c == 8 * j
      requires TableOk(h[..], buf[..len], j) && |Used(h[..])| < n
      ensures i < n && i == Cell(Home(buf[..len], j, n), t, n)
      ensures forall u :: 0 <= u < t ==>
        var k := h[Cell(Home(buf[..len], j, n), u, n)];
        k != HASH_UNUSED && BlockAt(buf[..len], k) != BlockAt(buf[..len], j)
      ensures h[i] == HASH_UNUSED || BlockAt(buf[..len], h[i]) == BlockAt(buf[..len], j)
    {
      hide Get32, Found, Used;
      ghost var s, cells := buf[..len], h[..];
      ghost var home := Home(s, j, n);
      ghost var f := FreeCell(cells);
      ghost var far := DistanceTo(home, f, n);
      BlockOf(buf, len, j);
      i := Get32(buf[c..c+8]) % n;
      t := 0;
      while h[i] != HASH_UNUSED
        invariant i < n && i == Cell(home, t, n) && t <= far
        invariant forall u :: 0 <= u < t ==>
          var k := cells[Cell(home, u, n)]; k != HASH_UNUSED && BlockAt(s, k) != BlockAt(s, j)
        decreases far - t
      {
        assert cells[i] == h[i] < j;
        BlockOf(buf, len, h[i]);
        if buf[c..c+8] == buf[8*h[i]..8*h[i]+8] {
          break;
        }
        i := NextCell(i, n);
        t := t + 1;
      }
    }

    /** The scan through the table. */
    method HashScan(buf: array<byte>, len: nat) returns (v: Verdict)
      requires Valid() && h != null && len <= buf.Length && len % 8 == 0 && len <= SSH_MAXBLOCKS * 8
      requires HashFactor(len / 8) <= n
      modifies h
      ensures Valid() && v == VerdictOf(buf[..len])
    {
      hide CrcVanishes, BlockAt, TableOk, Cell, Home;
      ghost var s := buf[..len];
      forall i | 0 <= i < n {
        h[i] := HASH_UNUSED;
      }
      EmptyTable(h[..], s);
      assert Used(h[..]) == {};
      var c, j := 0, 0;
      while c < len
        invariant c == 8 * j && c <= len && buf[..len] == s
        invariant TableOk(h[..], s, j) && |Used(h[..])| <= j
        invariant forall i :: 0 <= i < j ==> !AttackAt(s, i)
      {
        var i;
        ghost var t;
        i, t := Probe(buf, len, c, j);
        ghost var cells := h[..];
        CellsBelow(cells, s, j, i);
        if h[i] != HASH_UNUSED {
          assert Repeats(s, j);
          BlockOf(buf, len, j);
          var vanishes := CheckCrc(buf[c..c+8], buf, len);
          if vanishes {
            assert AttackAt(s, j);
            return Attack;
          }
        } else {
          ProbeIsComplete(cells, s, j, t);
        }
        StoreKeepsTable(cells, s, j, t);
        UsedAfterStore(cells, i, j);
        h[i] := j;
        assert h[..] == cells[i := j];
        c, j := c + 8, j + 1;
      }
      return Unremarkable;
    }

    /** Both scans agree with the definition, whatever packets the detector has seen before, as long as the size of its
        table has not wrapped. */
    method DetectAttack(buf: array<byte>, len: nat) returns (v: Verdict)
      requires Valid() && len <= buf.Length
      requires len > SSH_MAXBLOCKS * 8 || len % 8 != 0 || HashFactor(len / 8) <= 16384
      modifies this, h
      ensures Valid() && (h == old(h) || fresh(h))
      ensures v == VerdictOf(buf[..len])
    {
      hide AttackAt;
      if len > SSH_MAXBLOCKS * 8 || len % 8 != 0 {
        return BadSize;
      }
      Resize(len / 8);
      if len <= HASH_MINBLOCKS {
        v := ShortScan(buf, len);
      } else {
        v := HashScan(buf, len);
      }
    }
  }

  /** Ciphertext whose blocks all differ passes. */
  lemma DistinctBlocksPass(s: seq<byte>)
    requires |s| <= SSH_MAXBLOCKS * 8 && |s| % 8 == 0
    requires forall c, d :: 0 <= d < c < |s| / 8 ==> BlockAt(s, d) != BlockAt(s, c)
    ensures VerdictOf(s) == Unremarkable
  {
    hide CrcVanishes;
  }
}
