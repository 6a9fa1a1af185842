/** The wildcard matcher of match.c against the language of its pattern: `*` stands for any run of characters, `?` for
    any one character. */
module Match {

  // ---------------------------------------------------------------- the language

  /** What one pattern character may stand for. */
  predicate Fits(c: char, piece: string) {
    c == '*' || (|piece| == 1 && (c == '?' || piece[0] == c))
  }

  function Flat(pieces: seq<string>): string {
    if pieces == [] then "" else pieces[0] + Flat(pieces[1..])
  }

  ghost predicate Spells(p: string, pieces: seq<string>) {
    |pieces| == |p| && forall i :: 0 <= i < |p| ==> Fits(p[i], pieces[i])
  }

  /** A string is in the language when it is cut up into one fitting piece for every character of the pattern. */
  ghost predicate InLanguage(p: string, s: string) {
    exists pieces :: Spells(p, pieces) && Flat(pieces) == s
  }

  /** The first piece taken off. */
  ghost predicate FirstPiece(p: string, s: string, k: nat)
    requires p != []
  {
    k <= |s| && Fits(p[0], s[..k]) && InLanguage(p[1..], s[k..])
  }

  lemma LanguageUnfolds(p: string, s: string)
    requires p != []
    ensures InLanguage(p, s) <==> exists k: nat :: FirstPiece(p, s, k)
  {
    if InLanguage(p, s) {
      var pieces :| Spells(p, pieces) && Flat(pieces) == s;
      assert Spells(p[1..], pieces[1..]);
      assert s[..|pieces[0]|] == pieces[0] && s[|pieces[0]|..] == Flat(pieces[1..]);
      assert FirstPiece(p, s, |pieces[0]|);
    }
    if k: nat :| FirstPiece(p, s, k) {
      var rest :| Spells(p[1..], rest) && Flat(rest) == s[k..];
      var pieces := [s[..k]] + rest;
      assert pieces[1..] == rest;
      assert Spells(p, pieces) && Flat(pieces) == s;
    }
  }

  lemma LanguageOfNothing(s: string)
    ensures InLanguage("", s) <==> s == ""
  {
    if s == "" {
      assert Spells("", []) && Flat([]) == s;
    }
  }

  /** A pattern that starts with anything but an asterisk takes one character. */
  lemma LanguageOfOne(p: string, s: string)
    requires p != [] && p[0] != '*'
    ensures InLanguage(p, s) <==> s != [] && (p[0] == '?' || p[0] == s[0]) && InLanguage(p[1..], s[1..])
  {
    LanguageUnfolds(p, s);
    if s != [] && (p[0] == '?' || p[0] == s[0]) && InLanguage(p[1..], s[1..]) {
      assert FirstPiece(p, s, 1);
    }
  }

  /** Without an asterisk a pattern stands for the strings of its length that agree with it but for its question
      marks. */
  lemma {:induction false} WithoutAsterisks(p: string, s: string)
    requires '*' !in p
    ensures InLanguage(p, s) <==> |s| == |p| && forall i :: 0 <= i < |p| ==> p[i] == '?' || p[i] == s[i]
    decreases |p|
  {
    hide InLanguage;
    if p == "" {
      LanguageOfNothing(s);
    } else {
      LanguageOfOne(p, s);
      if s != [] {
        WithoutAsterisks(p[1..], s[1..]);
        assert forall i :: 0 <= i < |p| - 1 ==> p[1..][i] == p[i+1];
        assert |s| == |p| ==> forall i :: 1 <= i < |p| ==> p[i] == p[1..][i-1] && s[i] == s[1..][i-1];
      }
    }
  }

  /** An asterisk stands for any run of characters, none included. */
  lemma AsteriskStandsForAll(p: string, s: string)
    requires p != [] && p[0] == '*'
    ensures InLanguage(p, s) <==> exists k :: 0 <= k <= |s| && InLanguage(p[1..], s[k..])
  {
    hide InLanguage;
    LanguageUnfolds(p, s);
    if k :| 0 <= k <= |s| && InLanguage(p[1..], s[k..]) {
      assert FirstPiece(p, s, k);
    }
  }

  // ---------------------------------------------------------------- what the program accepts

  /** After an asterisk that is not the last character, the rest is tried only where the string has not ended. */
  predicate Accepts(p: string, s: string)
    decreases |p|
  {
    if p == [] then s == []
    else if p[0] == '*' then |p| == 1 || exists k :: 0 <= k < |s| && Accepts(p[1..], s[k..])
    else s != [] && (p[0] == '?' || p[0] == s[0]) && Accepts(p[1..], s[1..])
  }

  predicate EndsInTwoAsterisks(p: string) {
    |p| >= 2 && p[|p|-1] == '*' && p[|p|-2] == '*'
  }

  lemma {:induction false} AcceptsOnlyTheLanguage(p: string, s: string)
    requires Accepts(p, s)
    ensures InLanguage(p, s)
    decreases |p|
  {
    hide InLanguage;
    LanguageOfNothing(s);
    if p != [] {
      LanguageUnfolds(p, s);
      if p[0] != '*' {
        AcceptsOnlyTheLanguage(p[1..], s[1..]);
        LanguageOfOne(p, s);
      } else if |p| == 1 {
        LanguageOfNothing("");
        assert p[1..] == "" && s[|s|..] == "";
        assert FirstPiece(p, s, |s|);
      } else {
        var k :| 0 <= k < |s| && Accepts(p[1..], s[k..]);
        AcceptsOnlyTheLanguage(p[1..], s[k..]);
        assert FirstPiece(p, s, k);
      }
    }
  }

  /** The fewest characters the pattern can stand for. */
  function Least(p: string): nat {
    if p == [] then 0 else (if p[0] == '*' then 0 else 1) + Least(p[1..])
  }

  lemma {:induction false} LeastIsLeast(p: string, s: string)
    requires InLanguage(p, s)
    ensures |s| >= Least(p)
    decreases |p|
  {
    hide InLanguage;
    if p != [] {
      LanguageUnfolds(p, s);
      var k: nat :| FirstPiece(p, s, k);
      LeastIsLeast(p[1..], s[k..]);
    }
  }

  lemma {:induction false} NothingLeft(p: string)
    requires Least(p) == 0 && |p| >= 2
    ensures EndsInTwoAsterisks(p)
    decreases |p|
  {
    if |p| > 2 {
      NothingLeft(p[1..]);
    } else {
      assert Least(p) == (if p[0] == '*' then 0 else 1) + Least(p[1..]);
    }
  }

  lemma {:induction false} AcceptsAllOfTheLanguage(p: string, s: string)
    requires InLanguage(p, s) && !EndsInTwoAsterisks(p)
    ensures Accepts(p, s)
    decreases |p|
  {
    hide InLanguage;
    LanguageOfNothing(s);
    if p != [] {
      LanguageUnfolds(p, s);
      if p[0] != '*' {
        LanguageOfOne(p, s);
        AcceptsAllOfTheLanguage(p[1..], s[1..]);
      } else if |p| > 1 {
        var k: nat :| FirstPiece(p, s, k);
        if k == |s| {
          LeastIsLeast(p[1..], s[k..]);
          NothingLeft(p);
          assert false;
        }
        AcceptsAllOfTheLanguage(p[1..], s[k..]);
      }
    }
  }

  /** With two asterisks at the end, what is accepted must be longer than it need be. */
  lemma {:induction false} AcceptedIsLonger(p: string, s: string)
    requires Accepts(p, s) && EndsInTwoAsterisks(p)
    ensures |s| > Least(p)
    decreases |p|
  {
    if p[0] != '*' {
      AcceptedIsLonger(p[1..], s[1..]);
    } else {
      var k :| 0 <= k < |s| && Accepts(p[1..], s[k..]);
      if |p| > 2 {
        AcceptedIsLonger(p[1..], s[k..]);
      } else {
        assert Least(p) == Least(p[1..]) == Least(p[1..][1..]);
      }
    }
  }

  /** The shortest string of the language. */
  function Shortest(p: string): (s: string)
    ensures |s| == Least(p)
  {
    if p == [] then "" else (if p[0] == '*' then "" else [p[0]]) + Shortest(p[1..])
  }

  lemma {:induction false} ShortestIsInLanguage(p: string)
    ensures InLanguage(p, Shortest(p))
    decreases |p|
  {
    hide InLanguage;
    LanguageOfNothing("");
    if p != [] {
      ShortestIsInLanguage(p[1..]);
      LanguageUnfolds(p, Shortest(p));
      var k := if p[0] == '*' then 0 else 1;
      assert Shortest(p)[k..] == Shortest(p[1..]);
      assert FirstPiece(p, Shortest(p), k);
    }
  }

  /** The program decides the language of the pattern exactly when the pattern does not end in two asterisks. */
  lemma DecidesTheLanguage(p: string)
    ensures (forall s :: Accepts(p, s) <==> InLanguage(p, s)) <==> !EndsInTwoAsterisks(p)
  {
    hide InLanguage;
    forall s | Accepts(p, s)
      ensures InLanguage(p, s)
    {
      AcceptsOnlyTheLanguage(p, s);
    }
    if EndsInTwoAsterisks(p) {
      ShortestIsInLanguage(p);
      if Accepts(p, Shortest(p)) {
        AcceptedIsLonger(p, Shortest(p));
      }
    } else {
      forall s | InLanguage(p, s)
        ensures Accepts(p, s)
      {
        AcceptsAllOfTheLanguage(p, s);
      }
    }
  }

  // ---------------------------------------------------------------- the operation

  /** Looking only where the known next character occurs misses nothing. */
  lemma KnownNextCharacter(p: string, s: string)
    requires |p| >= 2 && p[0] == '*' && p[1] != '*' && p[1] != '?'
    ensures Accepts(p, s) <==> exists k :: 0 <= k < |s| && s[k] == p[1] && Accepts(p[2..], s[k+1..])
  {
    forall k | 0 <= k < |s|
      ensures Accepts(p[1..], s[k..]) <==> s[k] == p[1] && Accepts(p[2..], s[k+1..])
    {
      assert p[1..][1..] == p[2..] && s[k..][1..] == s[k+1..];
    }
  }

  method MatchPattern(s0: string, pattern0: string) returns (r: bool)
    ensures r == Accepts(pattern0, s0)
    decreases |pattern0|
  {
    var s, pattern := s0, pattern0;
    while true
      invariant |pattern| <= |pattern0| && Accepts(pattern, s) == Accepts(pattern0, s0)
      decreases |pattern|
    {
      if pattern == [] {
        return s == [];
      }
      if pattern[0] == '*' {
        ghost var whole, text := pattern, s;
        pattern := pattern[1..];
        if pattern == [] {
          return true;
        }
        ghost var i := 0;
        if pattern[0] != '?' && pattern[0] != '*' {
          KnownNextCharacter(whole, text);
          while s != []
            invariant i <= |text| && s == text[i..]
            invariant forall k :: 0 <= k < i ==> !(text[k] == pattern[0] && Accepts(pattern[1..], text[k+1..]))
            decreases |s|
          {
            if s[0] == pattern[0] {
              var rest := MatchPattern(s[1..], pattern[1..]);
              if rest {
                return true;
              }
            }
            s, i := s[1..], i + 1;
          }
          return false;
        }
        while s != []
          invariant i <= |text| && s == text[i..]
          invariant forall k :: 0 <= k < i ==> !Accepts(pattern, text[k..])
          decreases |s|
        {
          var here := MatchPattern(s, pattern);
          if here {
            return true;
          }
          s, i := s[1..], i + 1;
        }
        return false;
      }
      if s == [] {
        return false;
      }
      if pattern[0] != '?' && pattern[0] != s[0] {
        return false;
      }
      s, pattern := s[1..], pattern[1..];
    }
  }
}
