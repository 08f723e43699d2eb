/** The run tokenizer of utils.go: `RegexpSplit` cuts a string into matched
    and unmatched pairs by repeatedly taking the leftmost match in the
    unconsumed suffix, and `ReverseString` reverses a string in place. */
module Utils {
  import opened Common
  import opened Regexp

  /** `RegexpPair`: one segment of the input and whether it is a match. */
  datatype Pair = Pair(value: string, matched: bool)

  /** `strings.Join(parts, "")`. */
  function Join(parts: seq<string>): string {
    if parts == [] then "" else Join(parts[..|parts| - 1]) + parts[|parts| - 1]
  }

  function Values(pairs: seq<Pair>): (r: seq<string>)
    ensures |r| == |pairs| && forall i :: 0 <= i < |r| ==> r[i] == pairs[i].value
  {
    seq(|pairs|, i requires 0 <= i < |pairs| => pairs[i].value)
  }

  lemma {:induction false} JoinAppend(a: seq<string>, b: seq<string>)
    ensures Join(a + b) == Join(a) + Join(b)
    decreases |b|
  {
    if b == [] {
      assert a + b == a;
    } else {
      var b', last := b[..|b| - 1], b[|b| - 1];
      var ab := a + b;
      assert ab[..|ab| - 1] == a + b' && ab[|ab| - 1] == last;
      JoinAppend(a, b');
      assert Join(ab) == (Join(a) + Join(b')) + last;
      assert Join(b) == Join(b') + last;
    }
  }

  lemma JoinSingle(x: string)
    ensures Join([x]) == x
  {
    assert Join([x]) == Join([]) + x;
  }

  lemma JoinTwo(x: string, y: string)
    ensures Join([x, y]) == x + y
  {
    assert [x, y][..1] == [x];
    JoinSingle(x);
  }

  /** Joining strings of pointwise equal lengths gives equal lengths. */
  lemma {:induction false} JoinLength(a: seq<string>, b: seq<string>)
    requires |a| == |b| && forall i :: 0 <= i < |a| ==> |a[i]| == |b[i]|
    ensures |Join(a)| == |Join(b)|
    decreases |a|
  {
    if a != [] {
      JoinLength(a[..|a| - 1], b[..|b| - 1]);
    }
  }

  /** The unmatched pair for the text before a match at `start`, if any. */
  function Before(s: string, start: nat): seq<Pair>
    requires start <= |s|
  {
    if start > 0 then [Pair(s[..start], false)] else []
  }

  /** The pairs the compiled path of `RegexpSplit` yields for `s`. */
  function Split(p: Pattern, s: string): (r: seq<Pair>)
    ensures forall k :: 0 <= k < |r| && r[k].matched ==> InLanguage(p, r[k].value)
    decreases |s|
  {
    match Find(p, s)
    case None => if s == "" then [] else [Pair(s, false)]
    case Some(loc) =>
      var head := Before(s, loc.start) + [Pair(s[loc.start..loc.end], true)];
      var tail := Split(p, s[loc.end..]);
      MatchAtSlice(p, s, loc.start, loc.end);
      MatchedAppend(p, head, tail);
      head + tail
  }

  /** Matched pairs in the language of `p` stay so when two lists are joined. */
  lemma MatchedAppend(p: Pattern, a: seq<Pair>, b: seq<Pair>)
    requires forall k :: 0 <= k < |a| && a[k].matched ==> InLanguage(p, a[k].value)
    requires forall k :: 0 <= k < |b| && b[k].matched ==> InLanguage(p, b[k].value)
    ensures forall k :: 0 <= k < |a + b| && (a + b)[k].matched ==> InLanguage(p, (a + b)[k].value)
  {
    forall k | 0 <= k < |a + b| && (a + b)[k].matched
      ensures InLanguage(p, (a + b)[k].value)
    {
      if k >= |a| {
        assert (a + b)[k] == b[k - |a|];
      }
    }
  }

  /** One round of the loop: the text before the leftmost match, the match,
      and the pairs of what is left after it. */
  lemma SplitStep(p: Pattern, s: string)
    requires Find(p, s).Some?
    ensures var loc := Find(p, s).value;
      && loc.start + 8 <= loc.end <= |s|
      && Split(p, s) == Before(s, loc.start) + [Pair(s[loc.start..loc.end], true)] + Split(p, s[loc.end..])
  {
  }

  /** `RegexpSplit` with the pattern already compiled: `None` stands for an
      expression that `regexp.Compile` rejects. */
  function Tokenize(compiled: Option<Pattern>, s: string): seq<Pair> {
    match compiled
    case None => [Pair(s, false)]
    case Some(p) => Split(p, s)
  }

  method RegexpSplit(compiled: Option<Pattern>, str: string) returns (data: seq<Pair>)
    ensures data == Tokenize(compiled, str)
  {
    data := [];
    if compiled.Some? {
      var m := compiled.value;
      var rest := str;
      ghost var whole := Split(m, str);
      while true
        invariant data + Split(m, rest) == whole
        decreases |rest|
      {
        var loc := Find(m, rest);
        if loc.None? {
          SplitLast(m, rest, data, whole);
          if rest != "" {
            data := data + [Pair(rest, false)];
          }
          break;
        }
        var start, end := loc.value.start, loc.value.end;
        SplitAdvance(m, rest, data, whole);
        ghost var done, before := data, Before(rest, start);
        if start > 0 {
          data := data + [Pair(rest[..start], false)];
        }
        assert data == done + before;
        var match_ := rest[start..end];
        data := data + [Pair(match_, true)];
        rest := rest[end..];
      }
    } else {
      data := data + [Pair(str, false)];
    }
  }

  /** The last round of the `RegexpSplit` loop: with no match left, what is
      left is one unmatched pair, or nothing when it is empty. */
  lemma SplitLast(p: Pattern, rest: string, data: seq<Pair>, whole: seq<Pair>)
    requires Find(p, rest).None? && data + Split(p, rest) == whole
    ensures whole == if rest == "" then data else data + [Pair(rest, false)]
  {
    if rest == "" {
      assert data + [] == data;
    }
  }

  /** One round of the `RegexpSplit` loop keeps its invariant: the pairs
      emitted so far, followed by the pairs of what is left, are the pairs
      of the whole input. */
  lemma SplitAdvance(p: Pattern, rest: string, data: seq<Pair>, whole: seq<Pair>)
    requires Find(p, rest).Some? && data + Split(p, rest) == whole
    ensures var loc := Find(p, rest).value;
      && loc.start < loc.end <= |rest|
      && data + Before(rest, loc.start) + [Pair(rest[loc.start..loc.end], true)] + Split(p, rest[loc.end..])
         == whole
  {
    SplitStep(p, rest);
    var loc := Find(p, rest).value;
    Regroup(data, Before(rest, loc.start), [Pair(rest[loc.start..loc.end], true)], Split(p, rest[loc.end..]));
  }

  lemma Regroup<T>(a: seq<T>, b: seq<T>, c: seq<T>, d: seq<T>)
    ensures a + b + c + d == a + (b + c + d)
  {
  }

  lemma JoinValuesAppend(a: seq<Pair>, b: seq<Pair>)
    ensures Join(Values(a + b)) == Join(Values(a)) + Join(Values(b))
  {
    assert Values(a + b) == Values(a) + Values(b);
    JoinAppend(Values(a), Values(b));
  }

  lemma JoinValuesSingle(x: Pair)
    ensures Join(Values([x])) == x.value
  {
    assert Values([x]) == [x.value];
    JoinSingle(x.value);
  }

  lemma SliceThree(s: string, i: nat, j: nat)
    requires i <= j <= |s|
    ensures s == s[..i] + s[i..j] + s[j..]
  {
  }

  /** The pairs partition the input: joined in order they give it back. */
  lemma {:induction false} SplitPartition(p: Pattern, s: string)
    ensures Join(Values(Split(p, s))) == s
    decreases |s|
  {
    var r := Find(p, s);
    if r.None? {
      if s != "" {
        JoinValuesSingle(Pair(s, false));
      }
    } else {
      SplitStep(p, s);
      var start, end := r.value.start, r.value.end;
      var pre, m := Before(s, start), Pair(s[start..end], true);
      SplitPartition(p, s[end..]);
      JoinValuesAppend(pre + [m], Split(p, s[end..]));
      JoinValuesAppend(pre, [m]);
      JoinValuesSingle(m);
      if start > 0 {
        JoinValuesSingle(Pair(s[..start], false));
      }
      assert Join(Values(pre)) == s[..start];
      SliceThree(s, start, end);
    }
  }

  /** Every pair is non-empty, so an empty input yields no pair. */
  lemma {:induction false} SplitNonEmpty(p: Pattern, s: string)
    ensures forall k :: 0 <= k < |Split(p, s)| ==> Split(p, s)[k].value != ""
    ensures s == "" <==> Split(p, s) == []
    decreases |s|
  {
    match Find(p, s)
    case None =>
    case Some(loc) =>
      SplitStep(p, s);
      SplitNonEmpty(p, s[loc.end..]);
      var r, pre, tail := Split(p, s), Before(s, loc.start), Split(p, s[loc.end..]);
      forall k | 0 <= k < |r| ensures r[k].value != "" {
        if k > |pre| {
          assert r[k] == tail[k - |pre| - 1];
        }
      }
  }

  /** The text before a match becomes exactly one unmatched pair: no two
      unmatched pairs are adjacent. */
  lemma {:induction false} SplitAlternates(p: Pattern, s: string)
    ensures var r := Split(p, s);
      forall k :: 0 <= k < |r| - 1 ==> r[k].matched || r[k + 1].matched
    decreases |s|
  {
    match Find(p, s)
    case None =>
    case Some(loc) =>
      SplitStep(p, s);
      SplitAlternates(p, s[loc.end..]);
      var r, pre, tail := Split(p, s), Before(s, loc.start), Split(p, s[loc.end..]);
      forall k | 0 <= k < |r| - 1 ensures r[k].matched || r[k + 1].matched {
        if k < |pre| {
          assert r[k + 1] == Pair(s[loc.start..loc.end], true);
        } else if k > |pre| {
          assert r[k] == tail[k - |pre| - 1] && r[k + 1] == tail[k - |pre|];
        }
      }
  }

  /** The text of an unmatched pair holds no match of the pattern anywhere:
      every match is the leftmost one in what was left of the input. */
  lemma {:induction false} SplitUnmatchedHasNoMatch(p: Pattern, s: string)
    ensures var r := Split(p, s);
      forall k, a, b :: 0 <= k < |r| && !r[k].matched ==> !MatchAt(p, r[k].value, a, b)
    decreases |s|
  {
    match Find(p, s)
    case None =>
    case Some(loc) =>
      SplitStep(p, s);
      SplitUnmatchedHasNoMatch(p, s[loc.end..]);
      var r, pre, tail := Split(p, s), Before(s, loc.start), Split(p, s[loc.end..]);
      forall k, a, b | 0 <= k < |r| && !r[k].matched ensures !MatchAt(p, r[k].value, a, b) {
        if k < |pre| {
          assert r[k].value == s[..loc.start];
          MatchAtPrefix(p, s, loc.start, a, b);
        } else {
          assert r[k] == tail[k - |pre| - 1];
        }
      }
  }

  /** A match inside a prefix of `s` is a match in `s` that starts before the
      prefix ends. */
  lemma MatchAtPrefix(p: Pattern, s: string, n: nat, a: int, b: int)
    requires n <= |s|
    ensures MatchAt(p, s[..n], a, b) ==> a < n && MatchAt(p, s, a, b)
  {
    if MatchAt(p, s[..n], a, b) {
      assert forall k :: 0 <= k < b ==> s[..n][k] == s[k];
    }
  }

  /** A string that is a single match is one matched pair. */
  lemma SplitWhole(p: Pattern, w: string)
    requires InLanguage(p, w)
    ensures Split(p, w) == [Pair(w, true)]
  {
    FindWhole(p, w);
    SplitStep(p, w);
    assert w[0..|w|] == w;
    assert w[|w|..] == "";
    FindShort(p, "");
  }

  /** A digit run longer than 20 is not passed over: its first 20 digits are
      a match, and the rest is tokenized again on its own. */
  lemma SplitLongDigitRun(s: string)
    requires AllDecimal(s) && |s| > 20
    ensures Split(DigitRun, s) == [Pair(s[..20], true)] + Split(DigitRun, s[20..])
    ensures |s| < 28 ==> Split(DigitRun, s) == [Pair(s[..20], true), Pair(s[20..], false)]
  {
    FindLongDigitRun(s);
    SplitStep(DigitRun, s);
    assert Before(s, 0) == [];
    assert s[0..20] == s[..20];
    if |s| < 28 {
      FindShort(DigitRun, s[20..]);
    }
  }

  /** The reversal of a string: the character at `i` comes from `|s| - 1 - i`. */
  function Reversed(s: string): (r: string)
    ensures |r| == |s|
  {
    if s == [] then [] else Reversed(s[1..]) + [s[0]]
  }

  lemma {:induction false} ReversedAt(s: string, i: nat)
    requires i < |s|
    ensures |Reversed(s)| == |s| && Reversed(s)[i] == s[|s| - 1 - i]
    decreases |s|
  {
    if i < |s| - 1 {
      ReversedAt(s[1..], i);
    } else if |s| > 1 {
      ReversedAt(s[1..], 0);
    }
  }

  /** `ReverseString` preserves the length and undoes itself. */
  lemma ReversedInvolution(s: string)
    ensures |Reversed(s)| == |s|
    ensures Reversed(Reversed(s)) == s
  {
    if s != [] {
      ReversedAt(s, 0);
      forall i | 0 <= i < |s| ensures Reversed(Reversed(s))[i] == s[i] {
        ReversedAt(s, |s| - 1 - i);
        ReversedAt(Reversed(s), i);
      }
    }
  }

  /** Reversing a string of digits gives a string of digits. */
  lemma ReversedAllDecimal(s: string)
    requires AllDecimal(s)
    ensures AllDecimal(Reversed(s))
  {
    forall i | 0 <= i < |Reversed(s)| ensures IsDecimal(Reversed(s)[i]) {
      ReversedAt(s, i);
    }
  }

  method ReverseString(s: string) returns (r: string)
    ensures r == Reversed(s)
  {
    var runes := new char[|s|](k requires 0 <= k < |s| => s[k]);
    var i, j := 0, |s| - 1;
    while i < j
      invariant 0 <= i <= j + 1 <= |s| || (|s| == 0 && i == 0 && j == -1)
      invariant i + j == |s| - 1
      invariant forall k :: 0 <= k < i ==> runes[k] == s[|s| - 1 - k] && runes[|s| - 1 - k] == s[k]
      invariant forall k :: i <= k <= j ==> runes[k] == s[k]
    {
      runes[i], runes[j] := runes[j], runes[i];
      i, j := i + 1, j - 1;
    }
    r := runes[..];
    forall k | 0 <= k < |s| ensures r[k] == Reversed(s)[k] {
      ReversedAt(s, k);
    }
    if |s| > 0 {
      ReversedAt(s, 0);
    }
  }
}
