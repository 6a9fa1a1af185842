/** The case-blind search of lib/libSystem/string.c: a hand-scheduled scan with jumps into its loops, which finds the
    first place where the needle matches. */
module Strcasestr {
  import opened Wire

  /** A string in memory, with its terminating zero. */
  predicate IsString(s: seq<byte>) {
    |s| > 0 && s[|s|-1] == 0 && forall i :: 0 <= i < |s| - 1 ==> s[i] != 0
  }

  /** The byte map fixes zero and sends nothing else to it. */
  ghost predicate KeepsZero(lower: byte -> byte) {
    forall x :: lower(x) == 0 <==> x == 0
  }

  /** The first `n` bytes of the needle are found at `i`. */
  ghost predicate PrefixAt(lower: byte -> byte, hay: seq<byte>, needle: seq<byte>, i: nat, n: nat) {
    n <= |needle| && i + n <= |hay| && forall j :: 0 <= j < n ==> lower(hay[i + j]) == lower(needle[j])
  }

  /** The needle, without its zero, is found at `i`, before the zero of the haystack. */
  ghost predicate MatchAt(lower: byte -> byte, hay: seq<byte>, needle: seq<byte>, i: nat)
    requires IsString(hay) && IsString(needle)
  {
    PrefixAt(lower, hay, needle, i, |needle| - 1) && i + |needle| <= |hay|
  }

  function Mapped(lower: byte -> byte, s: seq<byte>): seq<byte> {
    seq(|s|, i requires 0 <= i < |s| => lower(s[i]))
  }

  lemma MappedEqual(lower: byte -> byte, s: seq<byte>, t: seq<byte>)
    ensures Mapped(lower, s) == Mapped(lower, t) <==>
            |s| == |t| && forall j :: 0 <= j < |s| ==> lower(s[j]) == lower(t[j])
  {
    if Mapped(lower, s) == Mapped(lower, t) {
      forall j | 0 <= j < |s|
        ensures lower(s[j]) == lower(t[j])
      {
        assert Mapped(lower, s)[j] == Mapped(lower, t)[j];
      }
    }
  }

  /** The needle is found where the mapped haystack reads like the mapped needle, without the terminators. */
  lemma FoundMeansEqual(lower: byte -> byte, hay: seq<byte>, needle: seq<byte>, i: nat)
    requires IsString(hay) && IsString(needle)
    ensures MatchAt(lower, hay, needle, i) <==>
            && i + |needle| <= |hay|
            && Mapped(lower, hay[i..i+|needle|-1]) == Mapped(lower, needle[..|needle|-1])
  {
    hide Mapped;
    if i + |needle| <= |hay| {
      var text, word := hay[i..i+|needle|-1], needle[..|needle|-1];
      MappedEqual(lower, text, word);
      assert forall j :: 0 <= j < |text| ==> text[j] == hay[i+j] && word[j] == needle[j];
      if MatchAt(lower, hay, needle, i) {
        assert forall j :: 0 <= j < |text| ==> lower(text[j]) == lower(word[j]);
      }
      if Mapped(lower, text) == Mapped(lower, word) {
        assert forall j :: 0 <= j < |text| ==> lower(hay[i+j]) == lower(needle[j]);
      }
    }
  }

  ghost predicate NoneBefore(lower: byte -> byte, hay: seq<byte>, needle: seq<byte>, i: int)
    requires IsString(hay) && IsString(needle)
  {
    forall k :: 0 <= k < i ==> !MatchAt(lower, hay, needle, k)
  }

  /** What rules a place out: the first byte or the second differs. */
  lemma NotHere(lower: byte -> byte, hay: seq<byte>, needle: seq<byte>, i: nat, n: nat)
    requires IsString(hay) && IsString(needle) && KeepsZero(lower)
    requires n < |needle| - 1 && i + n < |hay| && lower(hay[i + n]) != lower(needle[n])
    ensures !MatchAt(lower, hay, needle, i)
  {
  }

  /** A needle of which something is left cannot start where the haystack ends, nor one byte before it if two are
      left. */
  lemma NoRoom(lower: byte -> byte, hay: seq<byte>, needle: seq<byte>, i: nat, n: nat)
    requires IsString(hay) && IsString(needle) && KeepsZero(lower)
    requires n < |needle| - 1 && i + n < |hay| && hay[i + n] == 0 && NoneBefore(lower, hay, needle, i)
    ensures forall k :: 0 <= k ==> !MatchAt(lower, hay, needle, k)
  {
    assert i + n == |hay| - 1;
    forall k | 0 <= k
      ensures !MatchAt(lower, hay, needle, k)
    {
    }
  }

  lemma EmptyMatches(lower: byte -> byte, hay: seq<byte>, needle: seq<byte>)
    requires IsString(hay) && IsString(needle) && |needle| == 1
    ensures MatchAt(lower, hay, needle, 0) && NoneBefore(lower, hay, needle, 0)
  {
  }

  lemma OneByteMatches(lower: byte -> byte, hay: seq<byte>, needle: seq<byte>, h: nat)
    requires IsString(hay) && IsString(needle) && |needle| == 2 && h < |hay| - 1 && lower(hay[h]) == lower(needle[0])
    ensures MatchAt(lower, hay, needle, h)
  {
  }

  lemma TwoBytesMatch(lower: byte -> byte, hay: seq<byte>, needle: seq<byte>, h: nat)
    requires |needle| >= 2 && h + 2 <= |hay|
    requires lower(hay[h]) == lower(needle[0]) && lower(hay[h + 1]) == lower(needle[1])
    ensures PrefixAt(lower, hay, needle, h, 2)
  {
  }

  /** The loop that compares the rest of the needle. On entry its first two bytes are found at `h`. */
  method CompareRest(lower: byte -> byte, hay: seq<byte>, needle: seq<byte>, h: nat) returns (found: bool)
    requires IsString(hay) && IsString(needle) && KeepsZero(lower)
    requires |needle| > 2 && PrefixAt(lower, hay, needle, h, 2) && h + 2 < |hay|
    ensures found == MatchAt(lower, hay, needle, h)
  {
    var rhaystack, n := h + 2, 2;
    var a := lower(needle[n]);
    if lower(hay[rhaystack]) == a {
      while true
        invariant 2 <= n < |needle| && rhaystack == h + n < |hay| && PrefixAt(lower, hay, needle, h, n)
        invariant a == lower(needle[n]) == lower(hay[rhaystack])
        decreases |needle| - n
      {
        if a == 0 {
          return true;
        }
        assert PrefixAt(lower, hay, needle, h, n + 1);
        rhaystack, n := rhaystack + 1, n + 1;
        a := lower(needle[n]);
        if lower(hay[rhaystack]) != a {
          break;
        }
        if a == 0 {
          return true;
        }
        assert PrefixAt(lower, hay, needle, h, n + 1);
        rhaystack, n := rhaystack + 1, n + 1;
        a := lower(needle[n]);
        if lower(hay[rhaystack]) != a {
          break;
        }
      }
    }
    if a != 0 {
      NotHere(lower, hay, needle, h, n);
    }
    return a == 0;
  }

  /** Where the scan stands: at the head of its inner loop, at the label `shloop` inside it, or at the label `jin`
      after it. */
  datatype Place = Head | Shloop | Jin

  method Strcasestr(lower: byte -> byte, hay: seq<byte>, needle: seq<byte>) returns (r: int)
    requires IsString(hay) && IsString(needle) && KeepsZero(lower)
    ensures r >= 0 ==> MatchAt(lower, hay, needle, r) && NoneBefore(lower, hay, needle, r)
    ensures r < 0 ==> forall k :: 0 <= k ==> !MatchAt(lower, hay, needle, k)
  {
    hide MatchAt, PrefixAt;
    var b := lower(needle[0]);
    if b == 0 {
      EmptyMatches(lower, hay, needle);
      return 0;
    }
    var h := -1;
    while true
      invariant -1 <= h < |hay| - 1 && NoneBefore(lower, hay, needle, h + 1)
      decreases |hay| - h
    {
      h := h + 1;
      if hay[h] == 0 {
        NoRoom(lower, hay, needle, h, 0);
        return -1;
      }
      if lower(hay[h]) == b {
        break;
      }
      NotHere(lower, hay, needle, h, 0);
    }
    var c := lower(needle[1]);
    if c == 0 {
      OneByteMatches(lower, hay, needle, h);
      return h;
    }
    var at := Jin;
    while true
      invariant 0 <= h < |hay| - 1 && |needle| > 2
      invariant at.Head? ==> NoneBefore(lower, hay, needle, h + 1)
      invariant at.Shloop? ==> NoneBefore(lower, hay, needle, h)
      invariant at.Jin? ==> NoneBefore(lower, hay, needle, h) && lower(hay[h]) == b
      decreases |hay| - h, if at.Shloop? then 2 else if at.Jin? then 1 else 0
    {
      match at {
        case Head =>
          h := h + 1;
          if hay[h] == 0 {
            NoRoom(lower, hay, needle, h, 0);
            return -1;
          }
          if lower(hay[h]) == b {
            at := Jin;
          } else {
            NotHere(lower, hay, needle, h, 0);
            h := h + 1;
            if hay[h] == 0 {
              NoRoom(lower, hay, needle, h, 0);
              return -1;
            }
            at := Shloop;
          }
        case Shloop =>
          if lower(hay[h]) != b {
            NotHere(lower, hay, needle, h, 0);
            at := Head;
          } else {
            at := Jin;
          }
        case Jin =>
          h := h + 1;
          if hay[h] == 0 {
            NoRoom(lower, hay, needle, h - 1, 1);
            return -1;
          }
          if lower(hay[h]) != c {
            NotHere(lower, hay, needle, h - 1, 1);
            at := Shloop;
          } else {
            h := h - 1;
            TwoBytesMatch(lower, hay, needle, h);
            var found := CompareRest(lower, hay, needle, h);
            if found {
              return h;
            }
            at := Head;
          }
      }
    }
  }
}
