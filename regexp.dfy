/** The regular-expression engine, for the two patterns the codec compiles:
    `[0-9]{8,20}` (a run of decimal digits) and `[0-9a-f*]{6,18}[0-9]!` (an
    obfuscated run). The language of each pattern is stated declaratively
    (`InLanguage`), and `Find` is a concrete matcher proved to return the
    leftmost match and, at that start, the match that Go's leftmost-first
    greedy search prefers, which for these two patterns is the longest. */
module Regexp {
  import opened Common

  datatype Pattern =
    | DigitRun       // [0-9]{8,20}
    | ObfuscatedRun  // [0-9a-f*]{6,18}[0-9]!

  /** The half-open byte range [start, end) that `FindStringIndex` reports. */
  datatype Loc = Loc(start: nat, end: nat)

  predicate IsDecimal(c: char) {
    '0' <= c <= '9'
  }

  predicate IsObfuscatedChar(c: char) {
    IsDecimal(c) || 'a' <= c <= 'f' || c == '*'
  }

  predicate AllDecimal(w: string) {
    forall i :: 0 <= i < |w| ==> IsDecimal(w[i])
  }

  /** The whole of `w` matches pattern `p`. */
  predicate InLanguage(p: Pattern, w: string) {
    && 8 <= |w| <= 20
    && match p
       case DigitRun => AllDecimal(w)
       case ObfuscatedRun =>
         && (forall i :: 0 <= i < |w| - 2 ==> IsObfuscatedChar(w[i]))
         && IsDecimal(w[|w| - 2])
         && w[|w| - 1] == '!'
  }

  /** `s[i..j]` is a match of `p`, stated on the positions of `s`. */
  predicate MatchAt(p: Pattern, s: string, i: int, j: int) {
    && 0 <= i && i + 8 <= j <= |s| && j - i <= 20
    && match p
       case DigitRun => forall k :: i <= k < j ==> IsDecimal(s[k])
       case ObfuscatedRun =>
         && (forall k :: i <= k < j - 2 ==> IsObfuscatedChar(s[k]))
         && IsDecimal(s[j - 2])
         && s[j - 1] == '!'
  }

  /** A match at `[i, j)` is exactly a slice in the language of `p`. */
  lemma MatchAtSlice(p: Pattern, s: string, i: int, j: int)
    ensures MatchAt(p, s, i, j) <==> 0 <= i <= j <= |s| && InLanguage(p, s[i..j])
  {
    if 0 <= i <= j <= |s| {
      var w := s[i..j];
      assert forall k :: 0 <= k < |w| ==> w[k] == s[i + k];
      if InLanguage(p, w) {
        forall k | i <= k < j ensures s[k] == w[k - i] { }
      }
    }
  }

  /** The character class repeated at the head of pattern `p`. */
  predicate InClass(p: Pattern, c: char) {
    match p
    case DigitRun => IsDecimal(c)
    case ObfuscatedRun => IsObfuscatedChar(c)
  }

  /** Length of the longest run of class characters of `p` starting at `i`. */
  function RunFrom(p: Pattern, s: string, i: nat): (m: nat)
    requires i <= |s|
    ensures i + m <= |s|
    ensures forall k :: i <= k < i + m ==> InClass(p, s[k])
    ensures i + m == |s| || !InClass(p, s[i + m])
    decreases |s| - i
  {
    if i < |s| && InClass(p, s[i]) then 1 + RunFrom(p, s, i + 1) else 0
  }

  /** Every match of `[0-9]{8,20}` at `i` lies inside the digit run from `i`. */
  lemma DigitMatchAt(s: string, i: nat, j: int)
    requires i <= |s|
    ensures MatchAt(DigitRun, s, i, j) <==> i + 8 <= j <= i + 20 && j <= i + RunFrom(DigitRun, s, i)
  {
    var m := RunFrom(DigitRun, s, i);
    if MatchAt(DigitRun, s, i, j) {
      forall k | i <= k < j ensures IsDecimal(s[k]) {
        assert s[k] == s[i..j][k - i];
      }
    }
    if i + 8 <= j <= i + 20 && j <= i + m {
      assert forall k :: 0 <= k < j - i ==> s[i..j][k] == s[i + k];
    }
  }

  /** A match of `[0-9a-f*]{6,18}[0-9]!` at `i` ends just after the class run
      from `i`, because `!` is outside the class: there is at most one. */
  lemma ObfuscatedMatchAt(s: string, i: nat, j: int)
    requires i <= |s|
    ensures var m := RunFrom(ObfuscatedRun, s, i);
      MatchAt(ObfuscatedRun, s, i, j) <==>
        && j == i + m + 1 && 7 <= m <= 19 && j <= |s|
        && IsDecimal(s[i + m - 1]) && s[i + m] == '!'
  {
    var m := RunFrom(ObfuscatedRun, s, i);
    if MatchAt(ObfuscatedRun, s, i, j) {
      var w := s[i..j];
      forall k | i <= k < j - 1 ensures IsObfuscatedChar(s[k]) {
        assert s[k] == w[k - i];
      }
      assert s[j - 1] == w[|w| - 1];
      assert s[j - 2] == w[|w| - 2];
    }
    if j == i + m + 1 && 7 <= m <= 19 && j <= |s| && IsDecimal(s[i + m - 1]) && s[i + m] == '!' {
      var w := s[i..j];
      assert forall k :: 0 <= k < j - i ==> w[k] == s[i + k];
    }
  }

  lemma DigitMatches(s: string, i: nat)
    requires i <= |s|
    ensures forall j :: MatchAt(DigitRun, s, i, j) <==>
      i + 8 <= j <= i + 20 && j <= i + RunFrom(DigitRun, s, i)
  {
    forall j { DigitMatchAt(s, i, j); }
  }

  lemma ObfuscatedMatches(s: string, i: nat)
    requires i <= |s|
    ensures var m := RunFrom(ObfuscatedRun, s, i);
      forall j :: MatchAt(ObfuscatedRun, s, i, j) <==>
        && j == i + m + 1 && 7 <= m <= 19 && j <= |s|
        && IsDecimal(s[i + m - 1]) && s[i + m] == '!'
  {
    forall j { ObfuscatedMatchAt(s, i, j); }
  }

  /** The match at `i` that a leftmost-first greedy search keeps: the longest. */
  function LongestMatchAt(p: Pattern, s: string, i: nat): (e: Option<nat>)
    requires i <= |s|
    ensures e.Some? ==> MatchAt(p, s, i, e.value) && forall j :: e.value < j ==> !MatchAt(p, s, i, j)
    ensures e.None? ==> forall j :: !MatchAt(p, s, i, j)
  {
    var m := RunFrom(p, s, i);
    match p
    case DigitRun =>
      DigitMatches(s, i);
      if m >= 8 then Some(i + if m < 20 then m else 20) else None
    case ObfuscatedRun =>
      ObfuscatedMatches(s, i);
      if 7 <= m <= 19 && i + m < |s| && IsDecimal(s[i + m - 1]) && s[i + m] == '!'
      then Some(i + m + 1) else None
  }

  /** The leftmost match of `p` starting at or after `i`. */
  function FindFrom(p: Pattern, s: string, i: nat): (r: Option<Loc>)
    requires i <= |s|
    ensures r.None? ==> forall a, b :: i <= a ==> !MatchAt(p, s, a, b)
    ensures r.Some? ==>
      && i <= r.value.start
      && MatchAt(p, s, r.value.start, r.value.end)
      && (forall a, b :: i <= a < r.value.start ==> !MatchAt(p, s, a, b))
      && (forall b :: r.value.end < b ==> !MatchAt(p, s, r.value.start, b))
    decreases |s| - i
  {
    match LongestMatchAt(p, s, i)
    case Some(e) => Some(Loc(i, e))
    case None => if i == |s| then None else FindFrom(p, s, i + 1)
  }

  /** `FindStringIndex`: the leftmost match of `p` in `s`, the longest one at
      that start, or None when `s` holds no match at all. */
  function Find(p: Pattern, s: string): (r: Option<Loc>)
    ensures r.None? ==> forall a, b :: !MatchAt(p, s, a, b)
    ensures r.Some? ==>
      && MatchAt(p, s, r.value.start, r.value.end)
      && (forall a, b :: a < r.value.start ==> !MatchAt(p, s, a, b))
      && (forall b :: r.value.end < b ==> !MatchAt(p, s, r.value.start, b))
  {
    FindFrom(p, s, 0)
  }

  /** A string that is itself one match is found whole. */
  lemma FindWhole(p: Pattern, w: string)
    requires InLanguage(p, w)
    ensures Find(p, w) == Some(Loc(0, |w|))
  {
    assert w[0..|w|] == w;
    assert MatchAt(p, w, 0, |w|);
  }

  /** A string shorter than 8 characters holds no match. */
  lemma FindShort(p: Pattern, s: string)
    requires |s| < 8
    ensures Find(p, s) == None
  {
  }

  /** In a run of more than 20 digits the first match is its first 20 digits:
      the run is cut, not skipped. */
  lemma FindLongDigitRun(s: string)
    requires AllDecimal(s) && |s| > 20
    ensures Find(DigitRun, s) == Some(Loc(0, 20))
  {
    assert s[0..20] == s[..20];
    assert MatchAt(DigitRun, s, 0, 20);
  }
}
