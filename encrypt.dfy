/** The default obfuscation codec of encrypt.go. `Encode` rewrites every run
    of 8 to 20 digits (after upper-casing the input) into lowercase shifted
    hex followed by the check digit and `!`, padded with `*` in the middle
    back to the run's length; `Decode` undoes it on every run of the shape
    `[0-9a-f*]{6,18}[0-9]!`; `Mask` stars the middle of every digit run.
    Each operation is a method that follows the source loop by loop, proved
    equal to a specification function (`Encoded`, `Decoded`, `Masked`);
    the lemmas state what those functions promise. */
module Encrypt {
  import opened Common
  import opened Regexp
  import opened Utils
  import opened Numerals

  /** `unicode.ToUpper` on one character, for ASCII letters. */
  function UpperChar(c: char): char {
    if 'a' <= c <= 'z' then (c as int - 'a' as int + 'A' as int) as char else c
  }

  /** `strings.ToUpper`, restricted to ASCII. */
  function ToUpper(s: string): (r: string)
    ensures |r| == |s|
  {
    seq(|s|, i requires 0 <= i < |s| => UpperChar(s[i]))
  }

  /** `strconv.Atoi(ch)` on the check digit, with 0 read as 10. */
  function Offset(ch: char): (offset: nat)
    requires IsDecimal(ch)
    ensures 1 <= offset <= 10
    ensures ch == '0' ==> offset == 10
    ensures ch != '0' ==> offset == ch as int - '0' as int
  {
    var d := ch as int - '0' as int;
    if d == 0 then 10 else d
  }

  /** One hex digit of `Encode`'s loop: `(i + offset) % 16`. */
  function Shift(c: char, offset: nat): char {
    DigitChar((DigitValue(c) + offset) % 16)
  }

  /** One hex digit of `Decode`'s loop: `(i - offset + 16) % 16`. The operand
      stays non-negative for offsets up to 10, so Go's `%` and Dafny's agree. */
  function Unshift(c: char, offset: nat): char {
    DigitChar((DigitValue(c) - offset + 16) % 16)
  }

  function ShiftAll(h: string, offset: nat): (r: string)
    ensures |r| == |h| && IsNumeral(r, 16)
  {
    seq(|h|, i requires 0 <= i < |h| => Shift(h[i], offset))
  }

  function UnshiftAll(h: string, offset: nat): (r: string)
    ensures |r| == |h|
  {
    seq(|h|, i requires 0 <= i < |h| => Unshift(h[i], offset))
  }

  lemma ShiftAllSnoc(h: string, j: nat, offset: nat)
    requires j < |h|
    ensures ShiftAll(h[..j + 1], offset) == ShiftAll(h[..j], offset) + [Shift(h[j], offset)]
  {
  }

  lemma UnshiftAllSnoc(h: string, j: nat, offset: nat)
    requires j < |h|
    ensures UnshiftAll(h[..j + 1], offset) == UnshiftAll(h[..j], offset) + [Unshift(h[j], offset)]
  {
  }

  /** Inserts `size - |r|` stars at index `|r| / 2` when `r` is shorter than `size`. */
  function PadMiddle(r: string, size: nat): string {
    if |r| < size then r[..|r| / 2] + Repeat('*', size - |r|) + r[|r| / 2..] else r
  }

  /** `strings.ReplaceAll(s, string(c), "")`. */
  function Remove(s: string, c: char): string {
    if s == [] then [] else (if s[0] == c then [] else [s[0]]) + Remove(s[1..], c)
  }

  /** The obfuscated form of one digit run (encrypt.go, the body of Encode's loop). */
  function EncodeRun(run: string): string
    requires |run| >= 1 && AllDecimal(run)
  {
    var ch := run[|run| - 1];
    PadMiddle(ShiftAll(HexOf(run), Offset(ch)) + [ch, '!'], |run|)
  }

  /** The digits before the check digit, reversed when the offset is odd. */
  function Payload(run: string): string
    requires |run| >= 1 && AllDecimal(run)
  {
    var head := run[..|run| - 1];
    if Offset(run[|run| - 1]) % 2 == 1 then Reversed(head) else head
  }

  /** The payload's number written in hex, before the shift. */
  function HexOf(run: string): string
    requires |run| >= 1 && AllDecimal(run)
  {
    Text(Value(Payload(run), 10), 16)
  }

  /** The digit run one obfuscated run stands for (the body of Decode's loop). */
  function DecodeRun(w: string): string
    requires InLanguage(ObfuscatedRun, w)
  {
    StrippedShape(w);
    var stripped := Remove(Remove(w, '*'), '!');
    Restore(stripped[..|stripped| - 1], stripped[|stripped| - 1], |w| - 1)
  }

  /** Unshifts the hex digits, writes their number in decimal padded to
      `size` digits, reverses it when the offset is odd, and appends the
      check digit. */
  function Restore(obf: string, ch: char, size: nat): string
    requires IsDecimal(ch)
  {
    var offset := Offset(ch);
    var dec := PadLeft(Text(Value(UnshiftAll(obf, offset), 16), 10), size);
    (if offset % 2 == 1 then Reversed(dec) else dec) + [ch]
  }

  /** The masked form of one digit run (the body of Mask's loop). */
  function MaskRun(run: string): string
    requires |run| >= 8
  {
    var size := |run|;
    if size >= 10 then run[..4] + Repeat('*', size - 8) + run[size - 4..]
    else run[..3] + Repeat('*', size - 6) + run[size - 3..]
  }

  function EncodeSegment(p: Pair): string
    requires p.matched ==> InLanguage(DigitRun, p.value)
  {
    if p.matched then EncodeRun(p.value) else p.value
  }

  function DecodeSegment(p: Pair): string
    requires p.matched ==> InLanguage(ObfuscatedRun, p.value)
  {
    if p.matched then DecodeRun(p.value) else p.value
  }

  function MaskSegment(p: Pair): string
    requires p.matched ==> InLanguage(DigitRun, p.value)
  {
    if p.matched then MaskRun(p.value) else p.value
  }

  /** Every matched pair of `pairs` is a whole match of `p`. */
  predicate MatchesIn(p: Pattern, pairs: seq<Pair>) {
    forall k :: 0 <= k < |pairs| && pairs[k].matched ==> InLanguage(p, pairs[k].value)
  }

  function EncodeSegments(pairs: seq<Pair>): (r: seq<string>)
    requires MatchesIn(DigitRun, pairs)
    ensures |r| == |pairs|
  {
    seq(|pairs|, i requires 0 <= i < |pairs| => EncodeSegment(pairs[i]))
  }

  function DecodeSegments(pairs: seq<Pair>): (r: seq<string>)
    requires MatchesIn(ObfuscatedRun, pairs)
    ensures |r| == |pairs|
  {
    seq(|pairs|, i requires 0 <= i < |pairs| => DecodeSegment(pairs[i]))
  }

  function MaskSegments(pairs: seq<Pair>): (r: seq<string>)
    requires MatchesIn(DigitRun, pairs)
    ensures |r| == |pairs|
  {
    seq(|pairs|, i requires 0 <= i < |pairs| => MaskSegment(pairs[i]))
  }

  lemma EncodeSegmentsSnoc(pairs: seq<Pair>, n: nat)
    requires MatchesIn(DigitRun, pairs) && n < |pairs|
    ensures MatchesIn(DigitRun, pairs[..n]) && MatchesIn(DigitRun, pairs[..n + 1])
    ensures EncodeSegments(pairs[..n + 1]) == EncodeSegments(pairs[..n]) + [EncodeSegment(pairs[n])]
  {
  }

  lemma DecodeSegmentsSnoc(pairs: seq<Pair>, n: nat)
    requires MatchesIn(ObfuscatedRun, pairs) && n < |pairs|
    ensures MatchesIn(ObfuscatedRun, pairs[..n]) && MatchesIn(ObfuscatedRun, pairs[..n + 1])
    ensures DecodeSegments(pairs[..n + 1]) == DecodeSegments(pairs[..n]) + [DecodeSegment(pairs[n])]
  {
  }

  lemma MaskSegmentsSnoc(pairs: seq<Pair>, n: nat)
    requires MatchesIn(DigitRun, pairs) && n < |pairs|
    ensures MatchesIn(DigitRun, pairs[..n]) && MatchesIn(DigitRun, pairs[..n + 1])
    ensures MaskSegments(pairs[..n + 1]) == MaskSegments(pairs[..n]) + [MaskSegment(pairs[n])]
  {
  }

  /** What `Encode(value)` returns. */
  function Encoded(value: string): string {
    Join(EncodeSegments(Split(DigitRun, ToUpper(value))))
  }

  /** What `Decode(value)` returns. */
  function Decoded(value: string): string {
    Join(DecodeSegments(Split(ObfuscatedRun, value)))
  }

  /** What `Mask(value)` returns. */
  function Masked(value: string): string {
    Join(MaskSegments(Split(DigitRun, value)))
  }

  // ---------------------------------------------------------------------
  // The methods of DefaultEncryptService
  // ---------------------------------------------------------------------

  /** `strconv.Atoi` on the check digit, then 0 taken as 10. */
  method CheckOffset(ch: char) returns (offset: nat)
    requires IsDecimal(ch)
    ensures offset == Offset(ch)
  {
    offset := ch as int - '0' as int;
    if offset == 0 {
      offset := 10;
    }
  }

  /** The hex loop of `Encode`: each digit `i` becomes `(i + offset) % 16`. */
  method ShiftDigits(hex: string, offset: nat) returns (value: string)
    ensures value == ShiftAll(hex, offset)
  {
    value := "";
    for j := 0 to |hex|
      invariant value == ShiftAll(hex[..j], offset)
    {
      ShiftAllSnoc(hex, j, offset);
      value := value + [DigitChar((DigitValue(hex[j]) + offset) % 16)];
    }
    assert hex[..|hex|] == hex;
  }

  /** The hex loop of `Decode`: each digit `i` becomes `(i - offset + 16) % 16`. */
  method UnshiftDigits(hex: string, offset: nat) returns (restored: string)
    ensures restored == UnshiftAll(hex, offset)
  {
    restored := "";
    for j := 0 to |hex|
      invariant restored == UnshiftAll(hex[..j], offset)
    {
      UnshiftAllSnoc(hex, j, offset);
      restored := restored + [DigitChar((DigitValue(hex[j]) - offset + 16) % 16)];
    }
    assert hex[..|hex|] == hex;
  }

  /** The body of Encode's loop for a matched run. */
  method EncodeMatch(run: string) returns (r: string)
    requires |run| >= 1 && AllDecimal(run)
    ensures r == EncodeRun(run)
  {
    var size := |run|;
    var ch := run[size - 1];
    var offset := CheckOffset(ch);
    var hex := PayloadHex(run, offset);
    var value := ShiftDigits(hex, offset);
    ghost var shifted := value;
    value := value + [ch];
    value := value + "!";
    assert value == shifted + [ch, '!'];
    r := PadStars(value, size);
  }

  /** The padding step of `Encode`: stars in the middle up to `size`. */
  method PadStars(value: string, size: nat) returns (r: string)
    ensures r == PadMiddle(value, size)
  {
    r := value;
    var size' := |value|;
    if size' < size {
      r := value[..size' / 2] + Repeat('*', size - size') + value[size' / 2..];
    }
  }

  /** The digits before the check digit, reversed when the offset is odd,
      read in decimal and written in hex. */
  method PayloadHex(run: string, offset: nat) returns (hex: string)
    requires |run| >= 1 && AllDecimal(run) && offset == Offset(run[|run| - 1])
    ensures hex == HexOf(run)
  {
    var value := run[..|run| - 1];
    if offset % 2 == 1 {
      value := ReverseString(value);
    }
    assert value == Payload(run);
    hex := Text(Value(value, 10), 16);
  }

  /** The body of Decode's loop for a matched run. */
  method DecodeMatch(w: string) returns (r: string)
    requires InLanguage(ObfuscatedRun, w)
    ensures r == DecodeRun(w)
  {
    var size := |w| - 1;
    StrippedShape(w);
    var value := Remove(Remove(w, '*'), '!');
    var size' := |value|;
    var ch := value[size' - 1];
    var hex := value[..size' - 1];
    r := RestoreDigits(hex, ch, size);
  }

  /** The rest of Decode's loop body: unshift the hex digits, write their
      number in decimal padded to `size`, reverse when the offset is odd, and
      append the check digit. */
  method RestoreDigits(hex: string, ch: char, size: nat) returns (r: string)
    requires IsDecimal(ch)
    ensures r == Restore(hex, ch, size)
  {
    var offset := CheckOffset(ch);
    var restored := UnshiftDigits(hex, offset);
    var v := Value(restored, 16);
    var dec := Text(v, 10);
    if |dec| < size {
      dec := Repeat('0', size - |dec|) + dec;
    }
    assert dec == PadLeft(Text(v, 10), size);
    if offset % 2 == 1 {
      dec := ReverseString(dec);
    }
    r := dec + [ch];
  }

  method Encode(value: string) returns (r: string)
    ensures r == Encoded(value)
  {
    var upper := ToUpper(value);
    var pairs := RegexpSplit(Some(DigitRun), upper);
    var data: seq<string> := [];
    for n := 0 to |pairs|
      invariant data == EncodeSegments(pairs[..n])
    {
      EncodeSegmentsSnoc(pairs, n);
      var pair := pairs[n];
      if pair.matched {
        var v := EncodeMatch(pair.value);
        pair := pair.(value := v);
      }
      data := data + [pair.value];
    }
    assert pairs[..|pairs|] == pairs;
    r := Join(data);
  }

  method Decode(value: string) returns (r: string)
    ensures r == Decoded(value)
  {
    var pairs := RegexpSplit(Some(ObfuscatedRun), value);
    var data: seq<string> := [];
    for n := 0 to |pairs|
      invariant data == DecodeSegments(pairs[..n])
    {
      DecodeSegmentsSnoc(pairs, n);
      var pair := pairs[n];
      if pair.matched {
        var v := DecodeMatch(pair.value);
        pair := pair.(value := v);
      }
      data := data + [pair.value];
    }
    assert pairs[..|pairs|] == pairs;
    r := Join(data);
  }

  /** The body of Mask's loop for a matched run: keep 4 digits at each end of
      a run of 10 or more, 3 of a shorter one, and star the middle. */
  method MaskMatch(run: string) returns (r: string)
    requires |run| >= 8
    ensures r == MaskRun(run)
  {
    var size := |run|;
    if size >= 10 {
      r := run[..4] + Repeat('*', size - 8) + run[size - 4..];
    } else {
      r := run[..3] + Repeat('*', size - 6) + run[size - 3..];
    }
  }

  method Mask(value: string) returns (r: string)
    ensures r == Masked(value)
  {
    var pairs := RegexpSplit(Some(DigitRun), value);
    var data: seq<string> := [];
    for n := 0 to |pairs|
      invariant data == MaskSegments(pairs[..n])
    {
      MaskSegmentsSnoc(pairs, n);
      var pair := pairs[n];
      if pair.matched {
        var v := MaskMatch(pair.value);
        pair := pair.(value := v);
      }
      data := data + [pair.value];
    }
    assert pairs[..|pairs|] == pairs;
    r := Join(data);
  }

  // ---------------------------------------------------------------------
  // The `Encrypt` column type: thin delegations to the default service
  // ---------------------------------------------------------------------

  /** `Encrypt.Value`: the column stores the encoded text, which is exactly
      as long as the value. */
  function ColumnValue(e: string): (r: string)
    ensures |r| == |e|
  {
    EncodedLength(e);
    Encoded(e)
  }

  /** `Encrypt.Scan`: a string read from the column is decoded; a value of
      any other dynamic type leaves the receiver as it was. */
  function ColumnScan(e: string, value: Any): (r: string)
    ensures !value.Str? ==> r == e
  {
    if value.Str? then Decoded(value.s) else e
  }

  /** `Encrypt.Mask` and `Encrypt.String`: the display form, as long as the value. */
  function ColumnMask(e: string): (r: string)
    ensures |r| == |e|
  {
    MaskedLength(e);
    Masked(e)
  }

  /** A column value of 8 to 20 digits is stored encoded and read back as
      itself, whatever the receiver held before. */
  lemma ColumnRoundTrip(e: string, prior: string)
    requires InLanguage(DigitRun, e)
    ensures ColumnScan(prior, Str(ColumnValue(e))) == e
  {
    RoundTrip(e);
  }

  // ---------------------------------------------------------------------
  // Lemmas
  // ---------------------------------------------------------------------

  /** A decimal digit is a numeral digit of base 10. */
  lemma DecimalIsNumeral(s: string)
    requires AllDecimal(s)
    ensures IsNumeral(s, 10)
  {
  }

  /** The two per-digit maps are mutual inverses for every offset in 1..10. */
  lemma ShiftInverse(c: char, offset: nat)
    requires IsDigitChar(c) && 1 <= offset <= 10
    ensures Unshift(Shift(c, offset), offset) == c
    ensures Shift(Unshift(c, offset), offset) == c
  {
    UnshiftAfterShift(c, offset);
    ShiftAfterUnshift(c, offset);
  }

  lemma UnshiftAfterShift(c: char, offset: nat)
    requires IsDigitChar(c) && 1 <= offset <= 10
    ensures Unshift(Shift(c, offset), offset) == c
  {
    var d := DigitValue(c);
    calc {
      Unshift(Shift(c, offset), offset);
      DigitChar(((d + offset) % 16 - offset + 16) % 16);
      { ModShiftInverse(d, offset); }
      DigitChar(d);
      { DigitCharOfValue(c); }
      c;
    }
  }

  lemma ShiftAfterUnshift(c: char, offset: nat)
    requires IsDigitChar(c) && 1 <= offset <= 10
    ensures Shift(Unshift(c, offset), offset) == c
  {
    var d := DigitValue(c);
    calc {
      Shift(Unshift(c, offset), offset);
      DigitChar(((d - offset + 16) % 16 + offset) % 16);
      { ModShiftInverse(d, offset); }
      DigitChar(d);
      { DigitCharOfValue(c); }
      c;
    }
  }

  /** The arithmetic behind `ShiftInverse`, on digit values. */
  lemma ModShiftInverse(d: int, offset: int)
    requires 0 <= d < 16 && 1 <= offset <= 10
    ensures ((d + offset) % 16 - offset + 16) % 16 == d
    ensures ((d - offset + 16) % 16 + offset) % 16 == d
  {
    if d + offset < 16 {
      assert (d + offset) % 16 == d + offset;
    } else {
      assert (d + offset) % 16 == d + offset - 16;
    }
    if d >= offset {
      assert (d - offset + 16) % 16 == d - offset;
    } else {
      assert (d - offset + 16) % 16 == d - offset + 16;
    }
  }

  lemma UnshiftShiftAll(h: string, offset: nat)
    requires IsNumeral(h, 16) && 1 <= offset <= 10
    ensures UnshiftAll(ShiftAll(h, offset), offset) == h
  {
    forall i | 0 <= i < |h| ensures UnshiftAll(ShiftAll(h, offset), offset)[i] == h[i] {
      ShiftInverse(h[i], offset);
    }
  }

  lemma {:induction false} RemoveAppend(a: string, b: string, c: char)
    ensures Remove(a + b, c) == Remove(a, c) + Remove(b, c)
    decreases |a|
  {
    if a != [] {
      assert (a + b)[1..] == a[1..] + b;
      RemoveAppend(a[1..], b, c);
    } else {
      assert a + b == b;
    }
  }

  lemma {:induction false} RemoveAbsent(s: string, c: char)
    requires forall i :: 0 <= i < |s| ==> s[i] != c
    ensures Remove(s, c) == s
    decreases |s|
  {
    if s != [] {
      RemoveAbsent(s[1..], c);
    }
  }

  lemma {:induction false} RemoveStars(n: nat)
    ensures Remove(Repeat('*', n), '*') == []
  {
    if n > 0 {
      RemoveAppend(Repeat('*', n - 1), ['*'], '*');
      RemoveStars(n - 1);
    }
  }

  lemma RemoveSingle(x: char, c: char)
    ensures Remove([x], c) == if x == c then [] else [x]
  {
    assert [x][1..] == [];
  }

  /** Removing one character brings in no other. */
  lemma {:induction false} RemoveKeepsAbsent(s: string, c: char, other: char)
    requires forall i :: 0 <= i < |s| ==> s[i] != other
    ensures forall i :: 0 <= i < |Remove(s, c)| ==> Remove(s, c)[i] != other
    decreases |s|
  {
    if s != [] {
      RemoveKeepsAbsent(s[1..], c, other);
    }
  }

  /** Removing the stars and the `!` of an obfuscated run leaves its hex
      digits followed by its check digit. */
  lemma StrippedShape(w: string)
    requires InLanguage(ObfuscatedRun, w)
    ensures var stripped := Remove(Remove(w, '*'), '!');
      && stripped == Remove(w[..|w| - 2], '*') + [w[|w| - 2]]
      && |stripped| >= 1 && IsDecimal(stripped[|stripped| - 1])
  {
    var body, d := w[..|w| - 2], w[|w| - 2];
    assert w == (body + [d]) + ['!'];
    RemoveAppend(body + [d], ['!'], '*');
    RemoveAppend(body, [d], '*');
    RemoveSingle(d, '*');
    RemoveSingle('!', '*');
    var kept := Remove(body, '*');
    assert Remove(w, '*') == (kept + [d]) + ['!'];
    assert forall i :: 0 <= i < |body| ==> body[i] == w[i];
    RemoveKeepsAbsent(body, '*', '!');
    RemoveAppend(kept + [d], ['!'], '!');
    RemoveSingle('!', '!');
    RemoveAbsent(kept + [d], '!');
    assert Remove(Remove(w, '*'), '!') == kept + [d];
  }

  /** Character `i` of the padded run: from the first half of `r`, a star,
      or from the second half of `r`. */
  lemma PadMiddleAt(r: string, size: nat, i: nat)
    requires |r| <= size && i < size
    ensures var h, k := |r| / 2, size - |r|;
      && |PadMiddle(r, size)| == size
      && PadMiddle(r, size)[i] == if i < h then r[i] else if i < h + k then '*' else r[i - k]
  {
  }

  /** Removing the stars of a padded run gives the run back. */
  lemma PadMiddleRemove(r: string, size: nat)
    requires |r| <= size
    requires forall i :: 0 <= i < |r| ==> r[i] != '*'
    ensures Remove(PadMiddle(r, size), '*') == r
  {
    if |r| < size {
      var a, z, b := r[..|r| / 2], Repeat('*', size - |r|), r[|r| / 2..];
      RemoveAppend(a + z, b, '*');
      RemoveAppend(a, z, '*');
      RemoveStars(size - |r|);
      RemoveAbsent(a, '*');
      RemoveAbsent(b, '*');
      assert a + b == r;
    } else {
      RemoveAbsent(r, '*');
    }
  }

  /** Shifted hex digits, the check digit and `!`, padded to `size`: a match
      of Decode's pattern whose stars vanish again when removed. */
  lemma PadObfuscated(obf: string, ch: char, size: nat)
    requires IsNumeral(obf, 16) && IsDecimal(ch) && 1 <= |obf| && |obf| + 2 <= size
    ensures var e := PadMiddle(obf + [ch, '!'], size);
      && |e| == size && e[size - 1] == '!' && e[size - 2] == ch
      && (forall i :: 0 <= i < size - 2 ==> IsObfuscatedChar(e[i]))
      && Remove(e, '*') == obf + [ch, '!']
  {
    var r := obf + [ch, '!'];
    var e := PadMiddle(r, size);
    PadMiddleAt(r, size, size - 1);
    PadMiddleAt(r, size, size - 2);
    forall i | 0 <= i < size - 2 ensures IsObfuscatedChar(e[i]) {
      PadMiddleAt(r, size, i);
    }
    PadMiddleRemove(r, size);
  }

  lemma PaddedStarsRemoved(obf: string, ch: char, size: nat)
    requires IsNumeral(obf, 16) && IsDecimal(ch) && 1 <= |obf| && |obf| + 2 <= size
    ensures Remove(PadMiddle(obf + [ch, '!'], size), '*') == (obf + [ch]) + ['!']
  {
    PadObfuscated(obf, ch, size);
    assert obf + [ch, '!'] == (obf + [ch]) + ['!'];
  }

  /** The payload is a numeral of one digit fewer than the run, and its hex
      text is at least two digits shorter than the run. */
  lemma PayloadFacts(run: string)
    requires InLanguage(DigitRun, run)
    ensures |Payload(run)| == |run| - 1 && IsNumeral(Payload(run), 10)
    ensures 1 <= |HexOf(run)| <= |run| - 2
  {
    var head := run[..|run| - 1];
    assert AllDecimal(head);
    ReversedAllDecimal(head);
    DecimalIsNumeral(Payload(run));
    HexShorterThanDecimal(Payload(run));
  }

  /** An encoded run is lowercase hex digits and stars, then the unchanged
      check digit, then `!`: a match of Decode's pattern, as long as the run. */
  lemma EncodeRunShape(run: string)
    requires InLanguage(DigitRun, run)
    ensures var e := EncodeRun(run);
      && |e| == |run|
      && e[|e| - 2] == run[|run| - 1] && e[|e| - 1] == '!'
      && InLanguage(ObfuscatedRun, e)
  {
    PayloadFacts(run);
    var ch := run[|run| - 1];
    PadObfuscated(ShiftAll(HexOf(run), Offset(ch)), ch, |run|);
  }

  /** Every 8-20 digit run encodes to exactly its own length. */
  lemma EncodeRunLength(run: string)
    requires InLanguage(DigitRun, run)
    ensures |EncodeRun(run)| == |run|
  {
    EncodeRunShape(run);
  }

  /** Removing the stars and the `!` of an encoded run leaves the shifted hex
      digits and the check digit. */
  lemma EncodeRunStripped(run: string)
    requires InLanguage(DigitRun, run)
    ensures var ch := run[|run| - 1];
      Remove(Remove(EncodeRun(run), '*'), '!') == ShiftAll(HexOf(run), Offset(ch)) + [ch]
  {
    var ch := run[|run| - 1];
    var obf := ShiftAll(HexOf(run), Offset(ch));
    var w := obf + [ch];
    assert Remove(EncodeRun(run), '*') == w + ['!'] by {
      PayloadFacts(run);
      PaddedStarsRemoved(obf, ch, |run|);
    }
    assert Remove(w + ['!'], '!') == w by {
      assert forall i :: 0 <= i < |w| ==> w[i] != '!';
      RemoveAppend(w, ['!'], '!');
      RemoveSingle('!', '!');
      RemoveAbsent(w, '!');
    }
  }

  /** Restoring the shifted hex digits of a run gives the run back. */
  lemma RestoreEncoded(run: string, obf: string, ch: char, size: nat)
    requires InLanguage(DigitRun, run) && size == |run| - 1
    requires ch == run[|run| - 1] && obf == ShiftAll(HexOf(run), Offset(ch))
    ensures Restore(obf, ch, size) == run
  {
    var head := run[..|run| - 1];
    var offset, payload, hex := Offset(ch), Payload(run), HexOf(run);
    assert UnshiftAll(obf, offset) == hex by {
      UnshiftShiftAll(hex, offset);
    }
    assert PadLeft(Text(Value(hex, 16), 10), size) == payload by {
      PayloadFacts(run);
      PadTextValue(payload, 10);
    }
    assert (if offset % 2 == 1 then Reversed(payload) else payload) == head by {
      if offset % 2 == 1 {
        ReversedInvolution(head);
      }
    }
    FrontLast(run);
  }

  /** A non-empty string is its front followed by its last character. */
  lemma FrontLast(s: string)
    requires |s| >= 1
    ensures s[..|s| - 1] + [s[|s| - 1]] == s
  {
  }

  /** Decoding an encoded run gives the run back. */
  lemma DecodeEncodeRun(run: string)
    requires InLanguage(DigitRun, run)
    ensures InLanguage(ObfuscatedRun, EncodeRun(run)) && DecodeRun(EncodeRun(run)) == run
  {
    EncodeRunShape(run);
    EncodeRunStripped(run);
    var w, ch := EncodeRun(run), run[|run| - 1];
    var obf := ShiftAll(HexOf(run), Offset(ch));
    DecodeStripped(w, obf, ch);
    RestoreEncoded(run, obf, ch, |w| - 1);
  }

  /** `Decode` restores an obfuscated run from what is left once its stars
      and `!` are removed. */
  lemma DecodeStripped(w: string, obf: string, ch: char)
    requires InLanguage(ObfuscatedRun, w) && Remove(Remove(w, '*'), '!') == obf + [ch]
    ensures IsDecimal(ch) && DecodeRun(w) == Restore(obf, ch, |w| - 1)
  {
    StrippedShape(w);
    var stripped := obf + [ch];
    assert stripped[..|stripped| - 1] == obf;
  }

  /** The check digit of an obfuscated run is the last character of its decoding. */
  lemma DecodeRunCheckDigit(w: string)
    requires InLanguage(ObfuscatedRun, w)
    ensures |DecodeRun(w)| >= 1 && DecodeRun(w)[|DecodeRun(w)| - 1] == w[|w| - 2]
  {
    StrippedShape(w);
  }

  /** Upper-casing leaves digits alone. */
  lemma UpperDigits(s: string)
    requires AllDecimal(s)
    ensures ToUpper(s) == s
  {
  }

  /** A string that is one digit run is encoded as that run. */
  lemma EncodedWhole(run: string)
    requires InLanguage(DigitRun, run)
    ensures Encoded(run) == EncodeRun(run)
  {
    UpperDigits(run);
    SplitWhole(DigitRun, run);
    assert EncodeSegments([Pair(run, true)]) == [EncodeRun(run)];
    JoinSingle(EncodeRun(run));
  }

  /** A string that is one obfuscated run is decoded as that run. */
  lemma DecodedWhole(w: string)
    requires InLanguage(ObfuscatedRun, w)
    ensures Decoded(w) == DecodeRun(w)
  {
    SplitWhole(ObfuscatedRun, w);
    assert DecodeSegments([Pair(w, true)]) == [DecodeRun(w)];
    JoinSingle(DecodeRun(w));
  }

  /** A string that is one digit run is masked as that run. */
  lemma MaskedWhole(run: string)
    requires InLanguage(DigitRun, run)
    ensures Masked(run) == MaskRun(run)
  {
    SplitWhole(DigitRun, run);
    assert MaskSegments([Pair(run, true)]) == [MaskRun(run)];
    JoinSingle(MaskRun(run));
  }

  /** For a string made only of 8 to 20 digits, Decode(Encode(s)) == s. */
  lemma RoundTrip(s: string)
    requires InLanguage(DigitRun, s)
    ensures Decoded(Encoded(s)) == s
  {
    EncodedWhole(s);
    DecodeEncodeRun(s);
    DecodedWhole(EncodeRun(s));
  }

  /** Encode keeps the length of every string. */
  lemma EncodedLength(s: string)
    ensures |Encoded(s)| == |s|
  {
    var pairs := Split(DigitRun, ToUpper(s));
    var segs := EncodeSegments(pairs);
    forall i | 0 <= i < |pairs| ensures |segs[i]| == |Values(pairs)[i]| {
      if pairs[i].matched {
        EncodeRunLength(pairs[i].value);
      }
    }
    JoinLength(segs, Values(pairs));
    SplitPartition(DigitRun, ToUpper(s));
  }

  /** Mask keeps the length of a run: the first and last four digits of a run
      of 10 or more, or the first and last three of a run of 8 or 9, with
      stars in between. */
  lemma MaskRunShape(run: string)
    requires InLanguage(DigitRun, run)
    ensures var m, keep := MaskRun(run), if |run| >= 10 then 4 else 3;
      && |m| == |run|
      && forall i :: 0 <= i < |run| ==>
           m[i] == if i < keep || i >= |run| - keep then run[i] else '*'
  {
    var keep := if |run| >= 10 then 4 else 3;
    var m := MaskRun(run);
    var a, z, b := run[..keep], Repeat('*', |run| - 2 * keep), run[|run| - keep..];
    assert m == a + z + b;
    forall i | 0 <= i < |run|
      ensures m[i] == if i < keep || i >= |run| - keep then run[i] else '*'
    {
      if i >= |run| - keep {
        assert m[i] == b[i - (|run| - keep)];
      }
    }
  }

  /** Mask keeps the length of every string. */
  lemma MaskedLength(s: string)
    ensures |Masked(s)| == |s|
  {
    var pairs := Split(DigitRun, s);
    var segs := MaskSegments(pairs);
    forall i | 0 <= i < |pairs| ensures |segs[i]| == |Values(pairs)[i]| {
      if pairs[i].matched {
        MaskRunShape(pairs[i].value);
      }
    }
    JoinLength(segs, Values(pairs));
    SplitPartition(DigitRun, s);
  }

  /** Text without a match is one unmatched pair, which every operation
      leaves as it is. */
  lemma NoMatchSplit(p: Pattern, s: string)
    requires forall a, b :: !MatchAt(p, s, a, b)
    ensures Split(p, s) == if s == "" then [] else [Pair(s, false)]
  {
  }

  /** Upper-casing changes no digit and makes no digit. */
  lemma UpperKeepsDigitMatches(s: string, a: int, b: int)
    ensures MatchAt(DigitRun, ToUpper(s), a, b) <==> MatchAt(DigitRun, s, a, b)
  {
    assert forall k :: 0 <= k < |s| ==> (IsDecimal(ToUpper(s)[k]) <==> IsDecimal(s[k]));
  }

  /** A string without a run of 8 digits is only upper-cased by Encode and is
      left unchanged by Mask. */
  lemma EncodedPassThrough(s: string)
    requires forall a, b :: !MatchAt(DigitRun, s, a, b)
    ensures Encoded(s) == ToUpper(s)
    ensures Masked(s) == s
  {
    forall a, b ensures !MatchAt(DigitRun, ToUpper(s), a, b) {
      UpperKeepsDigitMatches(s, a, b);
    }
    NoMatchSplit(DigitRun, ToUpper(s));
    NoMatchSplit(DigitRun, s);
    if s != "" {
      assert EncodeSegments([Pair(ToUpper(s), false)]) == [ToUpper(s)];
      assert MaskSegments([Pair(s, false)]) == [s];
      JoinSingle(ToUpper(s));
      JoinSingle(s);
    }
  }

  /** A string without an obfuscated run is left unchanged by Decode. */
  lemma DecodedPassThrough(s: string)
    requires forall a, b :: !MatchAt(ObfuscatedRun, s, a, b)
    ensures Decoded(s) == s
  {
    NoMatchSplit(ObfuscatedRun, s);
    if s != "" {
      assert DecodeSegments([Pair(s, false)]) == [s];
      JoinSingle(s);
    }
  }

  /** A run of 21 to 27 digits is not left alone: its first 20 digits are
      encoded (or masked) and the remaining ones pass through. */
  lemma LongRunIsCut(s: string)
    requires AllDecimal(s) && 20 < |s| < 28
    ensures Encoded(s) == EncodeRun(s[..20]) + s[20..]
    ensures Masked(s) == MaskRun(s[..20]) + s[20..]
  {
    UpperDigits(s);
    SplitLongDigitRun(s);
    var head, tail := s[..20], s[20..];
    assert InLanguage(DigitRun, head);
    var pairs := [Pair(head, true), Pair(tail, false)];
    assert EncodeSegments(pairs) == [EncodeRun(head), tail];
    assert MaskSegments(pairs) == [MaskRun(head), tail];
    JoinTwo(EncodeRun(head), tail);
    JoinTwo(MaskRun(head), tail);
  }

  /** A run of ten digits keeps its first and last four. */
  lemma MaskTenDigits(s: string)
    requires s == "1234567890"
    ensures Masked(s) == "1234**7890"
  {
    assert InLanguage(DigitRun, s);
    MaskedWhole(s);
    assert Repeat('*', 2) == "**";
  }

  /** A run of eight digits keeps its first and last three. */
  lemma MaskEightDigits(s: string)
    requires s == "12345678"
    ensures Masked(s) == "123**678"
  {
    assert InLanguage(DigitRun, s);
    MaskedWhole(s);
    assert Repeat('*', 2) == "**";
  }
}
