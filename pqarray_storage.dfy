/** `StorageArray` of pqarray/storage.go: a Postgres `varchar[]` column of
    storage paths. The array is a value (`seq<string>`); `Scan` returns the
    new array and updates the shared token cache of `StorageOptions`. The
    driver's text encoding and parsing are not part of this model: `Scan`
    receives the parsed strings, or `None` when parsing failed. */
module PqStorage {
  import opened Common
  import opened Storage

  /** `Scan`: the array becomes the binding of every parsed string, in
      order; on a parse failure it stays as it was. */
  method StorageArrayScan(opts: StorageOptions, a: seq<string>, parsed: Option<seq<string>>)
    returns (r: seq<string>)
    modifies opts
    ensures parsed.None? ==> r == a && opts.State() == old(opts.State())
    ensures parsed.Some? ==>
      (opts.State(), r) == BindAll(opts.config, opts.hmac, opts.getToken, old(opts.State()), parsed.value)
    ensures opts.uploadCalls == old(opts.uploadCalls)
  {
    r := a;
    if parsed.Some? {
      var objs := parsed.value;
      var c, h, g := opts.config, opts.hmac, opts.getToken;
      ghost var whole := BindAll(c, h, g, opts.State(), objs);
      var v := [];
      assert objs[0..] == objs;
      for n := 0 to |objs|
        invariant opts.uploadCalls == old(opts.uploadCalls)
        invariant BindAll(c, h, g, opts.State(), objs[n..]).0 == whole.0
        invariant v + BindAll(c, h, g, opts.State(), objs[n..]).1 == whole.1
      {
        ghost var st, done := opts.State(), v;
        BindAllSuffix(c, h, g, st, objs, n);
        var url := opts.BindSignature(objs[n]);
        ghost var rest := BindAll(c, h, g, opts.State(), objs[n + 1..]);
        assert BindAll(c, h, g, st, objs[n..]) == (rest.0, [url] + rest.1);
        v := v + [url];
        assert v + rest.1 == done + ([url] + rest.1);
      }
      assert objs[|objs|..] == [];
      assert v + [] == v;
      r := v;
      assert (opts.State(), r) == whole;
    }
  }

  /** One step of `BindAll` on the suffix from `n`. */
  lemma BindAllSuffix(c: StorageConfig, hmac: (string, string) -> string, getToken: nat -> string,
                      st: TokenState, xs: seq<string>, n: nat)
    requires n < |xs|
    ensures var (st', url) := BindStep(c, hmac, getToken, st, xs[n]);
      var rest := BindAll(c, hmac, getToken, st', xs[n + 1..]);
      BindAll(c, hmac, getToken, st, xs[n..]) == (rest.0, [url] + rest.1)
  {
    assert xs[n..][0] == xs[n] && xs[n..][1..] == xs[n + 1..];
  }

  /** `Array`: the unbound path of every element, in order. */
  method StorageArrayArray(c: StorageConfig, a: seq<string>) returns (v: seq<string>)
    ensures |v| == |a| && forall k :: 0 <= k < |a| ==> v[k] == UnBindSignature(c, a[k])
  {
    v := [];
    for n := 0 to |a|
      invariant |v| == n && forall k :: 0 <= k < n ==> v[k] == UnBindSignature(c, a[k])
    {
      v := v + [UnBindSignature(c, a[n])];
    }
  }

  /** `Value`: the strings stored are exactly those `Array` returns. */
  method StorageArrayValue(c: StorageConfig, a: seq<string>) returns (objs: seq<string>)
    ensures |objs| == |a| && forall k :: 0 <= k < |a| ==> objs[k] == UnBindSignature(c, a[k])
  {
    objs := [];
    for n := 0 to |a|
      invariant |objs| == n && forall k :: 0 <= k < n ==> objs[k] == UnBindSignature(c, a[k])
    {
      objs := objs + [UnBindSignature(c, a[n])];
    }
  }

  /** Reading an array back after scanning it gives every parsed path with
      its leading `/` stripped, whatever the token cache held. */
  lemma {:induction false} UnbindAfterBindAll(c: StorageConfig, hmac: (string, string) -> string,
                                              getToken: nat -> string, st: TokenState, xs: seq<string>)
    requires '?' !in c.serverURL
    ensures var urls := BindAll(c, hmac, getToken, st, xs).1;
      forall k :: 0 <= k < |xs| ==> UnBindSignature(c, urls[k]) == TrimPrefix(UnBindSignature(c, xs[k]), "/")
    decreases |xs|
  {
    if xs != [] {
      BindUnbind(c, hmac, getToken, st, xs[0]);
      var st' := BindStep(c, hmac, getToken, st, xs[0]).0;
      UnbindAfterBindAll(c, hmac, getToken, st', xs[1..]);
      var urls := BindAll(c, hmac, getToken, st, xs).1;
      var rest := BindAll(c, hmac, getToken, st', xs[1..]).1;
      assert urls == [BindStep(c, hmac, getToken, st, xs[0]).1] + rest;
      forall k | 1 <= k < |xs|
        ensures UnBindSignature(c, urls[k]) == TrimPrefix(UnBindSignature(c, xs[k]), "/")
      {
        assert urls[k] == rest[k - 1] && xs[1..][k - 1] == xs[k];
      }
    }
  }
}
