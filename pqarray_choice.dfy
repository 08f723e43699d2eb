/** `ChoiceArray` of pqarray/choice.go: a Postgres `int[]` column of choice
    codes. The text form of the array is parsed by the driver, which is not
    part of this model: `Scan` receives the parsed integers, or `None` when
    parsing failed. */
module PqChoice {
  import opened Common
  import opened Choices

  class ChoiceArray {
    var choices: seq<ChoiceType>
    var meta: seq<Choice>

    constructor (meta: seq<Choice>)
      ensures choices == [] && this.meta == meta
    {
      choices := [];
      this.meta := meta;
    }

    /** `Scan`: one fresh `ChoiceType` per parsed integer is appended, in
        order, after the choices already held, each with this array's `meta`
        and updated with the integer's low byte. */
    method Scan(parsed: Option<seq<int>>)
      modifies this
      ensures meta == old(meta)
      ensures parsed.None? ==> choices == old(choices)
      ensures parsed.Some? ==>
        && |choices| == |old(choices)| + |parsed.value|
        && choices[..|old(choices)|] == old(choices)
        && forall k :: |old(choices)| <= k < |choices| ==>
             && fresh(choices[k]) && choices[k].meta == meta
             && choices[k].choice == Updated(meta, ToByte(parsed.value[k - |old(choices)|])).0
    {
      if parsed.Some? {
        var objs := parsed.value;
        ghost var before := choices;
        for n := 0 to |objs|
          invariant meta == old(meta)
          invariant |choices| == |before| + n && choices[..|before|] == before
          invariant forall k :: |before| <= k < |choices| ==>
            && fresh(choices[k]) && choices[k].meta == meta
            && choices[k].choice == Updated(meta, ToByte(objs[k - |before|])).0
        {
          var choice := new ChoiceType(meta);
          assert forall k :: 0 <= k < |choices| ==> choices[k] != choice;
          var _ := choice.Update(ToByte(objs[n]));
          choices := choices + [choice];
        }
      }
    }

    /** `Array`: the code of every choice, in order. */
    method Array() returns (v: seq<byte>)
      ensures |v| == |choices| && forall k :: 0 <= k < |v| ==> v[k] == choices[k].choice.code
    {
      v := [];
      for n := 0 to |choices|
        invariant |v| == n && forall k :: 0 <= k < n ==> v[k] == choices[k].choice.code
      {
        v := v + [choices[n].choice.code];
      }
    }

    /** `Value`: the same codes as `Array`, widened to `int64`. */
    method Value() returns (v: seq<int>)
      ensures |v| == |choices| && forall k :: 0 <= k < |v| ==> v[k] == choices[k].choice.code as int
    {
      v := [];
      for n := 0 to |choices|
        invariant |v| == n && forall k :: 0 <= k < n ==> v[k] == choices[k].choice.code as int
      {
        v := v + [choices[n].choice.code as int];
      }
    }
  }
}
