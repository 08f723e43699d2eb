/** The object-storage URL binder of storage.go. A stored path is bound to a
    full URL when read from the database (`BindSignature`, signed with a
    token and an HMAC when signing is configured) and unbound back to a path
    when written (`UnBindSignature`). The token comes from a cache slot that
    is refilled from an external service.

    The global `StorageOptions` becomes the class `StorageOptions`: its
    configuration strings are a `StorageConfig` value, the cache is a map
    field, and the external services (token service, upload service, HMAC)
    are function-valued constants. The token service is asked for the
    `n`-th token as `getToken(n)`, so that successive calls may answer
    differently. The specification functions `TokenStep`, `BindStep` and
    `BindAll` say what the methods do to the cache and what they return. */
module Storage {
  import opened Common

  /** The configuration strings of `StorageConfig` (the expiry, the cache
      and the service are modelled apart). */
  datatype StorageConfig = StorageConfig(
    signatured: bool,
    serverURL: string,
    bucketName: string,
    accessKey: string,
    signatureKey: string)

  /** The defaults of the global `StorageOptions`. */
  const DefaultConfig := StorageConfig(false, "", "app", "", "")

  /** The cache key of the storage token. */
  const TokenKey := "token"

  /** Signing is configured: the flag is set and no credential is empty. */
  function HasSignature(c: StorageConfig): (b: bool)
    ensures b <==> c.signatured && c.serverURL != "" && c.bucketName != "" && c.accessKey != "" && c.signatureKey != ""
  {
    if !c.signatured then false
    else if c.serverURL == "" then false
    else if c.bucketName == "" then false
    else if c.accessKey == "" then false
    else if c.signatureKey == "" then false
    else true
  }

  /** `strings.TrimPrefix`. */
  function TrimPrefix(s: string, prefix: string): (r: string)
    ensures prefix <= s ==> s == prefix + r
    ensures !(prefix <= s) ==> r == s
  {
    if prefix <= s then s[|prefix|..] else s
  }

  /** `strings.TrimSuffix`. */
  function TrimSuffix(s: string, suffix: string): (r: string)
    ensures |suffix| <= |s| && s[|s| - |suffix|..] == suffix ==> s == r + suffix
    ensures !(|suffix| <= |s| && s[|s| - |suffix|..] == suffix) ==> r == s
  {
    if |suffix| <= |s| && s[|s| - |suffix|..] == suffix then s[..|s| - |suffix|] else s
  }

  /** `strings.Split(s, "?")[0]`: the text before the first `?`. */
  function BeforeQuery(s: string): (r: string)
    ensures r <= s && '?' !in r
    ensures |r| < |s| ==> s[|r|] == '?'
  {
    if s == [] || s[0] == '?' then [] else [s[0]] + BeforeQuery(s[1..])
  }

  /** The server URL without its trailing slash. */
  function Base(c: StorageConfig): string {
    TrimSuffix(c.serverURL, "/")
  }

  /** `Storage.UnBindSignature`: the empty string stays empty; otherwise the
      query is dropped and one leading `base + "/"` is removed. */
  function UnBindSignature(c: StorageConfig, s: string): (r: string)
    ensures s == "" ==> r == ""
    ensures '?' !in r
    ensures s != "" ==> r == BeforeQuery(s) || Base(c) + "/" + r == BeforeQuery(s)
  {
    if s != "" then TrimPrefix(BeforeQuery(s), Base(c) + "/") else s
  }

  /** Which way `UnBindSignature` goes: a non-empty string whose text before
      the query starts with `base + "/"` loses exactly that prefix, and any
      other keeps its text before the query whole. */
  lemma UnBindStrips(c: StorageConfig, s: string)
    requires s != ""
    ensures var prefix, path := Base(c) + "/", BeforeQuery(s);
      && (prefix <= path ==> prefix + UnBindSignature(c, s) == path)
      && (!(prefix <= path) ==> UnBindSignature(c, s) == path)
  {
  }

  /** `"/" + strings.TrimPrefix(path, "/")`: the path with exactly one of
      its leading slashes. */
  function Rooted(path: string): (r: string)
    ensures |r| >= 1 && r[0] == '/' && TrimPrefix(r, "/") == TrimPrefix(path, "/")
  {
    var r := "/" + TrimPrefix(path, "/");
    assert "/" <= r;
    r
  }

  function UnsignedURL(c: StorageConfig, path: string): string {
    Base(c) + path
  }

  function SignedURL(c: StorageConfig, path: string, token: string, hmac: (string, string) -> string): string {
    Base(c) + path + "?" + token + "," + hmac(c.signatureKey, path)
  }

  /** The cache and the number of tokens asked of the token service so far. */
  datatype TokenState = TokenState(cache: map<string, Any>, calls: nat)

  /** The cache holds a string token. */
  predicate Hit(st: TokenState) {
    TokenKey in st.cache && st.cache[TokenKey].Str?
  }

  /** `GetStorageToken`: a cached string token is returned as it is; on a miss
      the service is asked once, a non-empty answer is cached, and the empty
      string is returned. */
  function TokenStep(st: TokenState, getToken: nat -> string): (TokenState, string) {
    if Hit(st) then (st, st.cache[TokenKey].s)
    else
      var t := getToken(st.calls);
      (TokenState(if t != "" then st.cache[TokenKey := Str(t)] else st.cache, st.calls + 1), "")
  }

  /** `Storage.BindSignature` on the value `s`: the new token state and the URL. */
  function BindStep(c: StorageConfig, hmac: (string, string) -> string, getToken: nat -> string,
                    st: TokenState, s: string): (TokenState, string)
  {
    var path := UnBindSignature(c, s);
    if path != "" then
      var path := Rooted(path);
      if HasSignature(c) then
        var (st', token) := TokenStep(st, getToken);
        if token != "" then (st', SignedURL(c, path, token, hmac)) else (st', UnsignedURL(c, path))
      else (st, UnsignedURL(c, path))
    else (st, path)
  }

  /** Binds every string of `xs` in order, threading the token state. */
  function BindAll(c: StorageConfig, hmac: (string, string) -> string, getToken: nat -> string,
                   st: TokenState, xs: seq<string>): (r: (TokenState, seq<string>))
    ensures |r.1| == |xs|
    decreases |xs|
  {
    if xs == [] then (st, [])
    else
      var (st', head) := BindStep(c, hmac, getToken, st, xs[0]);
      var (st'', tail) := BindAll(c, hmac, getToken, st', xs[1..]);
      (st'', [head] + tail)
  }

  /** `Storage.UploadFile`: the token state afterwards, the number of uploads
      made, and the result. */
  function UploadStep(getToken: nat -> string, upload: (nat, seq<byte>, string) -> string,
                      st: TokenState, uploads: nat, data: seq<byte>): (TokenState, nat, string)
  {
    var (st', token) := TokenStep(st, getToken);
    if token != "" then (st', uploads + 1, upload(uploads, data, token)) else (st', uploads, "")
  }

  /** The global `StorageOptions` with its cache and its services. */
  class StorageOptions {
    const config: StorageConfig
    /** `HMacSha256(key, data)`: SHA-256 is not part of this model. */
    const hmac: (string, string) -> string
    /** `Service.GetToken`, asked for the `n`-th time. */
    const getToken: nat -> string
    /** `Service.UploadFile`, called for the `n`-th time. */
    const upload: (nat, seq<byte>, string) -> string
    var cache: map<string, Any>
    var tokenCalls: nat
    var uploadCalls: nat

    function State(): TokenState
      reads this
    {
      TokenState(cache, tokenCalls)
    }

    constructor (config: StorageConfig, hmac: (string, string) -> string, getToken: nat -> string,
                 upload: (nat, seq<byte>, string) -> string)
      ensures this.config == config && this.hmac == hmac && this.getToken == getToken && this.upload == upload
      ensures cache == map[] && tokenCalls == 0 && uploadCalls == 0
    {
      this.config := config;
      this.hmac := hmac;
      this.getToken := getToken;
      this.upload := upload;
      cache := map[];
      tokenCalls := 0;
      uploadCalls := 0;
    }

    /** The cache drops the token once it has expired (the clock is not
        part of this model). */
    method Expire()
      modifies this
      ensures cache == old(cache) - {TokenKey}
      ensures tokenCalls == old(tokenCalls) && uploadCalls == old(uploadCalls)
    {
      cache := cache - {TokenKey};
    }

    method GetStorageToken() returns (token: string)
      modifies this
      ensures (State(), token) == TokenStep(old(State()), getToken)
      ensures uploadCalls == old(uploadCalls)
    {
      if TokenKey in cache {
        var v := cache[TokenKey];
        if v.Str? {
          return v.s;
        }
      }
      var t := getToken(tokenCalls);
      tokenCalls := tokenCalls + 1;
      if t != "" {
        cache := cache[TokenKey := Str(t)];
      }
      return "";
    }

    method BindSignature(s: string) returns (r: string)
      modifies this
      ensures (State(), r) == BindStep(config, hmac, getToken, old(State()), s)
      ensures uploadCalls == old(uploadCalls)
    {
      var path := UnBindSignature(config, s);
      if path != "" {
        path := "/" + TrimPrefix(path, "/");
        if HasSignature(config) {
          var token := GetStorageToken();
          if token != "" {
            var signature := hmac(config.signatureKey, path);
            return TrimSuffix(config.serverURL, "/") + path + "?" + token + "," + signature;
          }
        }
        return TrimSuffix(config.serverURL, "/") + path;
      }
      return path;
    }

    method UploadFile(data: seq<byte>) returns (r: string)
      modifies this
      ensures (State(), uploadCalls, r) == UploadStep(getToken, upload, old(State()), old(uploadCalls), data)
    {
      var token := GetStorageToken();
      if token != "" {
        r := upload(uploadCalls, data, token);
        uploadCalls := uploadCalls + 1;
        return;
      }
      return "";
    }

    /** `Storage.Scan`: a string read from the database is bound; a value of
        any other dynamic type leaves the receiver `s` as it was. */
    method Scan(s: string, value: Any) returns (r: string)
      modifies this
      ensures value.Str? ==> (State(), r) == BindStep(config, hmac, getToken, old(State()), value.s)
      ensures !value.Str? ==> r == s && State() == old(State())
      ensures uploadCalls == old(uploadCalls)
    {
      r := s;
      if value.Str? {
        r := BindSignature(value.s);
      }
    }
  }

  /** `Storage.Value` and `Storage.String`: the unbound path, which holds no
      query and no server prefix to strip again. */
  function ColumnValue(c: StorageConfig, s: string): (r: string)
    ensures '?' !in r
  {
    UnBindSignature(c, s)
  }

  // ---------------------------------------------------------------------
  // Lemmas
  // ---------------------------------------------------------------------

  lemma {:induction false} BeforeQueryNoQuery(s: string)
    requires '?' !in s
    ensures BeforeQuery(s) == s
    decreases |s|
  {
    if s != [] {
      BeforeQueryNoQuery(s[1..]);
      assert s == [s[0]] + s[1..];
    }
  }

  /** Text before a `?` is cut exactly there. */
  lemma {:induction false} BeforeQueryAppend(a: string, b: string)
    requires '?' !in a
    ensures BeforeQuery(a + "?" + b) == a
    decreases |a|
  {
    if a != [] {
      assert (a + "?" + b)[1..] == a[1..] + "?" + b;
      BeforeQueryAppend(a[1..], b);
      assert a == [a[0]] + a[1..];
    }
  }

  /** The token service is asked only on a miss, and asked once; a miss
      always answers the empty string, and caches a non-empty answer. */
  lemma TokenStepCases(st: TokenState, getToken: nat -> string)
    ensures Hit(st) ==> TokenStep(st, getToken) == (st, st.cache[TokenKey].s)
    ensures !Hit(st) ==>
      var (st', token) := TokenStep(st, getToken);
      && token == ""
      && st'.calls == st.calls + 1
      && (getToken(st.calls) != "" ==> st'.cache == st.cache[TokenKey := Str(getToken(st.calls))] && Hit(st'))
      && (getToken(st.calls) == "" ==> st'.cache == st.cache)
  {
  }

  /** After a miss whose fetch answered `t`, the next call is a hit that
      returns `t` without asking the service again. */
  lemma TokenAfterMiss(st: TokenState, getToken: nat -> string)
    requires !Hit(st) && getToken(st.calls) != ""
    ensures var st' := TokenStep(st, getToken).0;
      TokenStep(st', getToken) == (st', getToken(st.calls))
  {
  }

  /** A value whose unbound path is empty binds to the empty string and
      leaves the cache alone. */
  lemma BindEmpty(c: StorageConfig, hmac: (string, string) -> string, getToken: nat -> string,
                  st: TokenState, s: string)
    requires UnBindSignature(c, s) == ""
    ensures BindStep(c, hmac, getToken, st, s) == (st, "")
  {
  }

  /** Without signing, or with no token at hand, the URL is the base, a
      slash and the path, with no query. */
  lemma BindUnsigned(c: StorageConfig, hmac: (string, string) -> string, getToken: nat -> string,
                     st: TokenState, s: string)
    requires UnBindSignature(c, s) != ""
    requires !HasSignature(c) || !Hit(st) || st.cache[TokenKey].s == ""
    ensures BindStep(c, hmac, getToken, st, s).1
      == Base(c) + "/" + TrimPrefix(UnBindSignature(c, s), "/")
    ensures '?' !in c.serverURL ==> '?' !in BindStep(c, hmac, getToken, st, s).1
  {
    var path := UnBindSignature(c, s);
    assert Rooted(path) == "/" + TrimPrefix(path, "/");
    if '?' !in c.serverURL {
      assert '?' !in Base(c) by { NoQueryTrimmed(c.serverURL, "/"); }
      assert '?' !in TrimPrefix(path, "/") by { NoQueryTrimPrefix(path, "/"); }
      NoQueryJoined(Base(c), "/", TrimPrefix(path, "/"));
    }
  }

  lemma NoQueryTrimmed(s: string, suffix: string)
    requires '?' !in s
    ensures '?' !in TrimSuffix(s, suffix)
  {
    var r := TrimSuffix(s, suffix);
    assert forall i :: 0 <= i < |r| ==> r[i] == s[i];
  }

  lemma NoQueryTrimPrefix(s: string, prefix: string)
    requires '?' !in s
    ensures '?' !in TrimPrefix(s, prefix)
  {
    var r := TrimPrefix(s, prefix);
    if prefix <= s {
      assert forall i :: 0 <= i < |r| ==> r[i] == s[|prefix| + i];
    }
  }

  lemma NoQueryJoined(a: string, b: string, d: string)
    requires '?' !in a && '?' !in b && '?' !in d
    ensures '?' !in a + b + d
  {
  }

  /** The defaults never sign: binding drops the query and keeps the path
      with one leading `/`, and the token state is not touched. */
  lemma DefaultBindsRooted(hmac: (string, string) -> string, getToken: nat -> string,
                           st: TokenState, s: string)
    ensures !HasSignature(DefaultConfig)
    ensures var path := TrimPrefix(BeforeQuery(s), "/");
      var (st', url) := BindStep(DefaultConfig, hmac, getToken, st, s);
      && st' == st
      && (path == "" ==> url == "")
      && (path != "" ==> url == "/" + TrimPrefix(path, "/"))
  {
    assert Base(DefaultConfig) + "/" == "/";
    assert s == "" ==> BeforeQuery(s) == "";
  }

  /** With signing and a cached token, the URL is the unsigned one followed
      by `?`, the token, `,` and the HMAC of the rooted path. */
  lemma BindSigned(c: StorageConfig, hmac: (string, string) -> string, getToken: nat -> string,
                   st: TokenState, s: string)
    requires UnBindSignature(c, s) != ""
    requires HasSignature(c) && Hit(st) && st.cache[TokenKey].s != ""
    ensures var path := "/" + TrimPrefix(UnBindSignature(c, s), "/");
      BindStep(c, hmac, getToken, st, s) ==
        (st, Base(c) + path + "?" + st.cache[TokenKey].s + "," + hmac(c.signatureKey, path))
  {
  }

  /** The characters of a rooted path, with `base` in front, hold no `?`. */
  lemma NoQueryInUrl(c: StorageConfig, path: string)
    requires '?' !in c.serverURL && '?' !in path
    ensures '?' !in Base(c) + Rooted(path)
  {
    assert forall i :: 0 <= i < |Base(c)| ==> Base(c)[i] == c.serverURL[i];
    var t := TrimPrefix(path, "/");
    assert forall i :: 0 <= i < |t| ==> t[i] == path[|path| - |t| + i];
  }

  /** Unbinding the URL of a rooted path, with or without a query, gives
      the path without its leading slash. */
  lemma UnbindUrl(c: StorageConfig, path: string, query: string)
    requires '?' !in c.serverURL && '?' !in path
    ensures var url := Base(c) + Rooted(path);
      && UnBindSignature(c, url) == TrimPrefix(path, "/")
      && UnBindSignature(c, url + "?" + query) == TrimPrefix(path, "/")
  {
    var base, tail := Base(c), TrimPrefix(path, "/");
    var url := base + Rooted(path);
    assert url == (base + "/") + tail;
    TrimPrefixConcat(base + "/", tail);
    assert BeforeQuery(url) == url by {
      NoQueryInUrl(c, path);
      BeforeQueryNoQuery(url);
    }
    assert BeforeQuery(url + "?" + query) == url by {
      NoQueryInUrl(c, path);
      BeforeQueryAppend(url, query);
    }
  }

  lemma TrimPrefixConcat(prefix: string, rest: string)
    ensures TrimPrefix(prefix + rest, prefix) == rest
  {
    assert prefix <= prefix + rest;
  }

  /** Unbinding a bound value gives the unbound value back, except that the
      leading `/` the binding added is stripped: it is not restored. */
  lemma BindUnbind(c: StorageConfig, hmac: (string, string) -> string, getToken: nat -> string,
                   st: TokenState, s: string)
    requires '?' !in c.serverURL
    ensures UnBindSignature(c, BindStep(c, hmac, getToken, st, s).1)
      == TrimPrefix(UnBindSignature(c, s), "/")
  {
    var path := UnBindSignature(c, s);
    if path != "" {
      var rooted := Rooted(path);
      var token := TokenStep(st, getToken).1;
      var signature := hmac(c.signatureKey, rooted);
      UnbindUrl(c, path, token + "," + signature);
      QueryAssoc(Base(c) + rooted, token, signature);
    }
  }

  lemma QueryAssoc(url: string, token: string, signature: string)
    ensures url + "?" + token + "," + signature == url + "?" + (token + "," + signature)
  {
  }

  /** With signing configured and the cache empty, binding a list asks the
      service on the first element, which comes out unsigned; when that
      fetch answered a token, every later element is signed with it. */
  lemma FirstUnsignedRestSigned(c: StorageConfig, hmac: (string, string) -> string, getToken: nat -> string,
                                st: TokenState, xs: seq<string>)
    requires HasSignature(c) && !Hit(st) && getToken(st.calls) != ""
    requires |xs| >= 1 && forall i :: 0 <= i < |xs| ==> UnBindSignature(c, xs[i]) != ""
    ensures var urls := BindAll(c, hmac, getToken, st, xs).1;
      && urls[0] == Base(c) + Rooted(UnBindSignature(c, xs[0]))
      && forall i :: 1 <= i < |xs| ==>
           urls[i] == SignedURL(c, Rooted(UnBindSignature(c, xs[i])), getToken(st.calls), hmac)
  {
    var (st', head) := BindStep(c, hmac, getToken, st, xs[0]);
    assert st' == TokenStep(st, getToken).0;
    AllSignedOnHit(c, hmac, getToken, st', xs[1..], getToken(st.calls));
  }

  /** Once the cache holds a non-empty token, every binding with signing on
      is signed with it, and the cache does not change. */
  lemma {:induction false} AllSignedOnHit(c: StorageConfig, hmac: (string, string) -> string, getToken: nat -> string,
                                          st: TokenState, xs: seq<string>, token: string)
    requires HasSignature(c) && Hit(st) && st.cache[TokenKey].s == token && token != ""
    requires forall i :: 0 <= i < |xs| ==> UnBindSignature(c, xs[i]) != ""
    ensures var (st', urls) := BindAll(c, hmac, getToken, st, xs);
      && st' == st
      && forall i :: 0 <= i < |xs| ==> urls[i] == SignedURL(c, Rooted(UnBindSignature(c, xs[i])), token, hmac)
    decreases |xs|
  {
    if xs != [] {
      var first := SignedURL(c, Rooted(UnBindSignature(c, xs[0])), token, hmac);
      assert BindStep(c, hmac, getToken, st, xs[0]) == (st, first);
      AllSignedOnHit(c, hmac, getToken, st, xs[1..], token);
      var rest := BindAll(c, hmac, getToken, st, xs[1..]).1;
      assert BindAll(c, hmac, getToken, st, xs) == (st, [first] + rest);
      forall i | 1 <= i < |xs|
        ensures ([first] + rest)[i] == SignedURL(c, Rooted(UnBindSignature(c, xs[i])), token, hmac)
      {
        assert ([first] + rest)[i] == rest[i - 1] && xs[1..][i - 1] == xs[i];
      }
    }
  }

  /** An upload on a miss never reaches the upload service: the token a
      miss returns is empty. */
  lemma UploadNeedsCachedToken(getToken: nat -> string, upload: (nat, seq<byte>, string) -> string,
                               st: TokenState, uploads: nat, data: seq<byte>)
    ensures !Hit(st) ==> UploadStep(getToken, upload, st, uploads, data).1 == uploads
    ensures !Hit(st) ==> UploadStep(getToken, upload, st, uploads, data).2 == ""
    ensures Hit(st) && st.cache[TokenKey].s != "" ==>
      UploadStep(getToken, upload, st, uploads, data) == (st, uploads + 1, upload(uploads, data, st.cache[TokenKey].s))
  {
  }
}
