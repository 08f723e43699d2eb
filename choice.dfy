/** The enumerated column of choice.go: a `ChoiceType` holds the current
    `Choice` and the list `Meta` of allowed choices. `Update(code)` selects
    the first allowed choice with that code, falls back to the first allowed
    choice when there is none, and accepts any code when nothing is listed.
    `Updated` states the outcome; the class follows the source's loop. */
module Choices {
  import opened Common

  /** `Choice`: a one-byte code and its label. */
  datatype Choice = Choice(code: byte, value: string)

  /** The index of the first entry of `meta` with `code`, if any. */
  function FirstMatch(meta: seq<Choice>, code: byte): (r: Option<nat>)
    ensures r.Some? ==> r.value < |meta| && meta[r.value].code == code
    ensures r.Some? ==> forall k :: 0 <= k < r.value ==> meta[k].code != code
    ensures r.None? ==> forall k :: 0 <= k < |meta| ==> meta[k].code != code
  {
    if meta == [] then None
    else if meta[0].code == code then Some(0)
    else match FirstMatch(meta[1..], code)
      case None => None
      case Some(i) => Some(i + 1)
  }

  /** The choice after `Update(code)` and its result, which depend only on
      `meta` and `code`. */
  function Updated(meta: seq<Choice>, code: byte): (Choice, bool) {
    if |meta| > 0 then
      match FirstMatch(meta, code)
      case Some(i) => (meta[i], true)
      case None => (meta[0], false)
    else (Choice(code, ""), true)
  }

  /** `ChoiceType`. */
  class ChoiceType {
    var choice: Choice
    var meta: seq<Choice>

    /** `ChoiceType{Meta: meta}`: the choice is Go's zero value. */
    constructor (meta: seq<Choice>)
      ensures this.meta == meta && choice == Choice(0, "")
    {
      this.meta := meta;
      choice := Choice(0, "");
    }

    method Update(code: byte) returns (ok: bool)
      modifies this
      ensures meta == old(meta)
      ensures (choice, ok) == Updated(meta, code)
    {
      ok := false;
      if |meta| > 0 {
        for i := 0 to |meta|
          invariant !ok
          invariant forall k :: 0 <= k < i ==> meta[k].code != code
        {
          if meta[i].code == code {
            choice := meta[i];
            ok := true;
            FirstMatchAt(meta, code, i);
            break;
          }
        }
        if !ok {
          choice := meta[0];
        }
      } else {
        choice := Choice(code, "");
        ok := true;
      }
    }

    /** `Scan`: an `int` is truncated to a byte and selected; a value of any
        other dynamic type, an `int64` included, changes nothing. */
    method Scan(value: Any)
      modifies this
      ensures meta == old(meta)
      ensures value.Int? ==> choice == Updated(meta, ToByte(value.i)).0
      ensures !value.Int? ==> choice == old(choice)
    {
      if value.Int? {
        var _ := Update(ToByte(value.i));
      }
    }

    /** `Value`: the code of the current choice. */
    function Value(): (code: byte)
      reads this
      ensures code == choice.code
    {
      choice.code
    }
  }

  lemma {:induction false} FirstMatchAt(meta: seq<Choice>, code: byte, i: nat)
    requires i < |meta| && meta[i].code == code
    requires forall k :: 0 <= k < i ==> meta[k].code != code
    ensures FirstMatch(meta, code) == Some(i)
    decreases i
  {
    if i > 0 {
      FirstMatchAt(meta[1..], code, i - 1);
    }
  }

  /** A listed code selects its first entry and succeeds. */
  lemma UpdateFound(meta: seq<Choice>, code: byte, i: nat)
    requires i < |meta| && meta[i].code == code
    ensures var (c, ok) := Updated(meta, code);
      && ok && c.code == code
      && exists j :: 0 <= j <= i && c == meta[j] && forall k :: 0 <= k < j ==> meta[k].code != code
  {
    var j := FirstMatch(meta, code).value;
    assert j <= i;
  }

  /** An unlisted code, with entries listed, falls back to the first entry
      and fails. */
  lemma UpdateFallback(meta: seq<Choice>, code: byte)
    requires |meta| > 0 && forall k :: 0 <= k < |meta| ==> meta[k].code != code
    ensures Updated(meta, code) == (meta[0], false)
  {
  }

  /** With no entry listed any code is accepted, with an empty label. */
  lemma UpdateEmpty(code: byte)
    ensures Updated([], code) == (Choice(code, ""), true)
  {
  }

  /** `Update` succeeds exactly when the code is listed or nothing is; the
      choice it makes is always one of the listed ones, and carries the code
      whenever it succeeds. */
  lemma UpdateOutcome(meta: seq<Choice>, code: byte)
    ensures var (c, ok) := Updated(meta, code);
      && (ok <==> |meta| == 0 || exists k :: 0 <= k < |meta| && meta[k].code == code)
      && (|meta| > 0 ==> c in meta)
      && (ok ==> c.code == code)
      && (!ok ==> c == meta[0])
  {
    var r := FirstMatch(meta, code);
    if |meta| > 0 && r.Some? {
      assert meta[r.value].code == code;
    }
  }

  /** Scanning an `int` into a column with no entries listed stores its
      low byte as the code. */
  lemma ScanUnlisted(v: int)
    ensures Updated([], ToByte(v)).0.code as int == v % 256
  {
  }

  /** Updating twice with the same code gives the same choice and result as
      updating once. */
  method UpdateIdempotent(c: ChoiceType, code: byte) returns (first: bool, second: bool)
    modifies c
    ensures c.meta == old(c.meta)
    ensures (c.choice, first) == Updated(old(c.meta), code)
    ensures first == second
    ensures (c.choice, second) == Updated(c.meta, code)
  {
    first := c.Update(code);
    ghost var once := c.choice;
    second := c.Update(code);
    assert c.choice == once;
  }

  /** The driver's `int64` is ignored, while the same number passed as an
      `int` is selected by its low byte. */
  method ScanInt64(c: ChoiceType, v: int) returns (ignored: Choice)
    modifies c
    ensures ignored == old(c.choice)
    ensures c.meta == old(c.meta)
    ensures c.choice == Updated(old(c.meta), ToByte(v)).0
  {
    c.Scan(Int64(v));
    ignored := c.choice;
    c.Scan(Int(v));
  }
}
