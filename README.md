# datatype: a verified model of the codec, the storage binder and the column helpers

This project models, in Dafny, the logic at the heart of the Go package
`datatype` (GORM column types). It covers five pieces.

- **Run tokenizer** (`utils.go`). `RegexpSplit` cuts a string into matched and
  unmatched pairs by repeatedly taking the leftmost match in what is left.
  `ReverseString` reverses a string in place. The regular-expression engine
  is modelled for the two patterns the package compiles: `[0-9]{8,20}` and
  `[0-9a-f*]{6,18}[0-9]!`. Each pattern's language is stated declaratively.
  The matcher `Find` is proved to return the leftmost match and, at that
  start, the longest one, which is what Go's leftmost-first greedy search
  returns for these two patterns.
- **Obfuscation codec** (`encrypt.go`). `Encode` turns each run of 8 to 20
  digits into shifted hex:
  - the last digit is the check digit, giving an offset where 0 reads as 10;
  - the payload is reversed when the offset is odd;
  - the payload's number is written in hex, and each hex digit is shifted
    by the offset modulo 16;
  - the check digit and `!` follow;
  - stars are inserted in the middle to restore the run's length.

  `Decode` undoes every step. `Mask` stars the middle of each digit run. The
  big-integer conversions of `math/big` are exact functions on unbounded
  naturals (`Numerals`).
- **Storage URL binder** (`storage.go`). It covers the `HasSignature` test,
  `UnBindSignature` and `BindSignature` (signed with a token and an HMAC
  when signing is configured), the cache-first `GetStorageToken`, and
  `UploadFile`. The global `StorageOptions` is a class whose cache and call
  counters are fields. The token service, the upload service and the HMAC
  are function-valued constants.
- **Choice column** (`choice.go`). `ChoiceType.Update` selects the first
  listed choice with a code, falls back to the first listed choice, or
  accepts any code when nothing is listed.
- **JSON query builder** (`json.go`) and the **Postgres array adapters**
  (`pqarray/choice.go`, `pqarray/storage.go`).

Imperative code stays imperative: the tokenizer loop, the in-place rune
swap, the per-pair and per-digit loops of the codec, the choice lookup loop,
the path builder and the array loops are methods with loop invariants. Each
method is proved equal to a specification function (`Tokenize`, `Reversed`,
`Encoded`, `Decoded`, `Masked`, `Updated`, `TokenStep`, `BindStep`,
`BindAll`, `DotJoin`). The lemmas state what those functions promise.

Files: `common.dfy` (byte, option, Go `any`), `regexp.dfy`, `utils.dfy`,
`numerals.dfy`, `encrypt.dfy`, `storage.dfy`, `choice.dfy`, `json.dfy`,
`pqarray_choice.dfy`, `pqarray_storage.dfy`.

### Behaviours of the code that the model keeps

- `GetStorageToken` returns the empty string on every cache miss, even
  when the service has just answered a token and that token was cached
  (storage.go:151-157). So the first signed binding after a miss is
  unsigned, and `UploadFile` uploads only on a cache hit
  (`Storage.FirstUnsignedRestSigned`, `Storage.UploadNeedsCachedToken`).
- `UnBindSignature` removes `base + "/"`, so unbinding a bound path loses
  the leading `/` that binding added (storage.go:90, storage.go:123-126).
  The model proves `UnBind(Bind(x)) == TrimPrefix(UnBind(x), "/")` when the
  server URL holds no `?` (`Storage.BindUnbind`).
- Both binding and unbinding use the server URL without its trailing `/`
  (storage.go:99, storage.go:110, storage.go:125).

## Model

| member | source | states |
|---|---|---|
| Common.Repeat | encrypt.go:56 | `strings.Repeat(c, n)` is `n` copies of `c`, as used for the stars of the codec and the zeros of its padding |
| Common.ToByte | choice.go:47 | `uint8(v)` keeps `v` modulo 256 and is the identity on 0..255 |
| Regexp.LongestMatchAt | utils.go:16 | the match a greedy search keeps at a start: a match, with no longer match at that start; none exactly when no match starts there |
| Regexp.FindFrom | utils.go:16 | the leftmost match at or after `i`, the longest at its start; none exactly when no match starts at or after `i` |
| Regexp.Find | utils.go:16 | `FindStringIndex`: a match with no match starting further left and no longer match at the same start; none exactly when the string holds no match |
| Regexp.MatchAtSlice | encrypt.go:23 | a match between two positions is exactly a slice of the string in the pattern's language |
| Regexp.FindWhole | encrypt.go:23 | a string that is itself one match of either pattern is found whole |
| Regexp.FindShort | encrypt.go:23 | a string shorter than 8 holds no match of either pattern |
| Regexp.FindLongDigitRun | encrypt.go:23 | in a run of more than 20 digits the first match is its first 20 digits |
| Utils.SplitStep | utils.go:16-33 | one loop round: the text before the leftmost match, the match (at least 8 long), then the pairs of the rest |
| Utils.RegexpSplit | utils.go:11-40 | the loop returns exactly `Tokenize`: the split pairs for a compiled pattern, one unmatched pair with the whole input (empty or not) when compilation fails |
| Utils.SplitPartition | utils.go:14-34 | joining the pair values in order gives the input back |
| Utils.SplitNonEmpty | utils.go:19-21 | every pair is non-empty, and the empty input yields no pair (and only it does) |
| Utils.SplitAlternates | utils.go:26-33 | no two unmatched pairs are adjacent |
| Utils.SplitUnmatchedHasNoMatch | utils.go:16-28 | the text of an unmatched pair holds no match anywhere |
| Utils.SplitWhole | utils.go:16-33 | a string that is one match is one matched pair |
| Utils.SplitLongDigitRun | utils.go:16-33 | a run of more than 20 digits gives its first 20 as a match and is tokenized again after them; below 28 digits the rest is one unmatched pair |
| Utils.Reversed | utils.go:43-51 | the reversal keeps the length |
| Utils.ReversedAt | utils.go:46-47 | the reversal puts character `|s|-1-i` at `i` |
| Utils.ReversedInvolution | utils.go:43-51 | reversing twice gives the string back |
| Utils.ReversedAllDecimal | encrypt.go:36-38 | reversing a digit string gives a digit string |
| Utils.ReverseString | utils.go:43-51 | the two-index swap loop computes `Reversed` |
| Numerals.DigitChar | encrypt.go:47 | `%x` of a value below 16 is a lowercase hex digit that reads back as that value |
| Numerals.DigitCharOfValue | encrypt.go:46 | reading a hex digit and writing it back gives the digit |
| Numerals.Text | encrypt.go:40-41 | `big.Int.Text`/`String`: a numeral of at least one digit, no leading zero, that reads back as the value |
| Numerals.DivMod | encrypt.go:40-41 | quotient and remainder of the digit-by-digit conversion, and the quotient shrinks |
| Numerals.PadLeft | encrypt.go:97-99 | left padding with zeros gives `size` characters when shorter |
| Numerals.DivModUnique | encrypt.go:40-41 | quotient and remainder are unique |
| Numerals.ValueBound | encrypt.go:40-41 | a `k`-digit numeral denotes less than `base^k` |
| Numerals.TextLength | encrypt.go:41 | a value below `base^k` is written in at most `k` digits |
| Numerals.ValueOfZeros | encrypt.go:97-99 | a string of zeros denotes 0 |
| Numerals.ValueLeadingZeros | encrypt.go:97-99 | leading zeros do not change a numeral's value |
| Numerals.NumeralUnique | encrypt.go:97-99 | numerals of equal length and value are equal |
| Numerals.PadNumeral | encrypt.go:97-99 | padding keeps a numeral and its value |
| Numerals.PadTextValue | encrypt.go:92-99 | reading a `k`-digit numeral, writing it back and padding to `k` digits gives it back |
| Numerals.PowTenBelowPowSixteen | encrypt.go:53-57 | `10^k <= 16^(k-1)` for `k >= 6` |
| Numerals.HexShorterThanDecimal | encrypt.go:40-51 | the hex text of a number read from `k >= 6` digits has at most `k-1` digits |
| Encrypt.ToUpper | encrypt.go:23 | upper-casing keeps the length |
| Encrypt.Offset | encrypt.go:30-34 | the check digit's offset is 1..10, with `0` read as 10 and any other digit as itself |
| Encrypt.ShiftAll | encrypt.go:45-48 | the shifted hex keeps the length and is a hex numeral |
| Encrypt.UnshiftAll | encrypt.go:87-90 | the unshifted hex keeps the length |
| Encrypt.CheckOffset | encrypt.go:78-82 | reading the check digit gives its offset, with `0` read as 10 |
| Encrypt.PayloadHex | encrypt.go:28-45 | dropping the check digit, reversing on an odd offset, reading in decimal and writing in hex gives the run's hex payload |
| Encrypt.ShiftDigits | encrypt.go:45-48 | the digit loop computes `ShiftAll` |
| Encrypt.PadStars | encrypt.go:53-57 | the padding step computes `PadMiddle` |
| Encrypt.UnshiftDigits | encrypt.go:87-90 | the digit loop computes `UnshiftAll` |
| Encrypt.RestoreDigits | encrypt.go:78-105 | unshifting, reading in hex, writing in decimal, zero-padding, re-reversing and appending the check digit computes `Restore` |
| Encrypt.MaskMatch | encrypt.go:119-125 | the masking of one matched run computes `MaskRun` |
| Encrypt.EncodeMatch | encrypt.go:24-57 | the per-run body, with its per-digit loop, computes `EncodeRun` |
| Encrypt.DecodeMatch | encrypt.go:70-105 | the per-run body, with its per-digit loop, computes `DecodeRun` |
| Encrypt.Encode | encrypt.go:20-64 | the pair loop returns `Encoded`: the join of the upper-cased input's pairs, each match encoded |
| Encrypt.Decode | encrypt.go:66-112 | the pair loop returns `Decoded`: the join of the pairs, each obfuscated run decoded |
| Encrypt.Mask | encrypt.go:114-132 | the pair loop returns `Masked`: the join of the pairs, each digit run masked |
| Encrypt.ColumnValue | encrypt.go:154-156 | `Encrypt.Value` stores the encoded text, which is exactly as long as the value |
| Encrypt.ColumnScan | encrypt.go:146-152 | `Encrypt.Scan` decodes a string; a value of another dynamic type leaves the receiver unchanged |
| Encrypt.ColumnMask | encrypt.go:158-165 | `Encrypt.Mask` and `String` show the masked text, as long as the value |
| Encrypt.ColumnRoundTrip | encrypt.go:146-156 | a column value of 8-20 digits is stored and read back as itself |
| Encrypt.DecimalIsNumeral | encrypt.go:40-41 | a digit string is a decimal numeral |
| Encrypt.ShiftInverse | encrypt.go:47-89 | `(i+offset)%16` and `(i-offset+16)%16` undo each other on a hex digit for every offset 1..10 |
| Encrypt.UnshiftAfterShift | encrypt.go:47-89 | unshifting a shifted hex digit gives it back for every offset 1..10 |
| Encrypt.ShiftAfterUnshift | encrypt.go:47-89 | shifting an unshifted hex digit gives it back for every offset 1..10 |
| Encrypt.UnshiftShiftAll | encrypt.go:45-90 | unshifting the shifted hex gives the hex back |
| Encrypt.ShiftAllSnoc | encrypt.go:45-48 | one round of the shift loop appends one shifted digit |
| Encrypt.UnshiftAllSnoc | encrypt.go:87-90 | one round of the unshift loop appends one unshifted digit |
| Encrypt.RemoveAppend | encrypt.go:72 | `ReplaceAll(s, c, "")` distributes over concatenation |
| Encrypt.RemoveAbsent | encrypt.go:72 | removing an absent character changes nothing |
| Encrypt.RemoveStars | encrypt.go:72 | removing the stars from stars leaves nothing |
| Encrypt.RemoveSingle | encrypt.go:72 | removal on one character |
| Encrypt.RemoveKeepsAbsent | encrypt.go:72 | removing one character brings in no other |
| Encrypt.StrippedShape | encrypt.go:72-76 | removing the stars and `!` of an obfuscated run leaves its non-star digits then its check digit |
| Encrypt.PadMiddleAt | encrypt.go:53-57 | each character of the padded run comes from the first half, the stars, or the second half |
| Encrypt.PadMiddleRemove | encrypt.go:56-72 | removing the stars of a padded run gives the run back |
| Encrypt.PadObfuscated | encrypt.go:47-57 | a padded shifted run has the run's length, ends with the check digit and `!`, is otherwise hex digits and stars, and loses its stars again |
| Encrypt.PayloadFacts | encrypt.go:28-41 | the payload is a numeral one digit shorter than the run, and its hex is at least two digits shorter than the run |
| Encrypt.EncodeRunShape | encrypt.go:47-69 | an encoded run keeps the run's length, has the check digit before a final `!`, and matches `[0-9a-f*]{6,18}[0-9]!` |
| Encrypt.EncodeRunLength | encrypt.go:53-57 | every 8-20 digit run encodes to exactly its own length |
| Encrypt.EncodeRunStripped | encrypt.go:72-76 | stripping an encoded run gives its shifted hex and check digit |
| Encrypt.DecodeStripped | encrypt.go:71-105 | decoding an obfuscated run restores its stripped hex digits with its check digit |
| Encrypt.RestoreEncoded | encrypt.go:78-105 | unshifting, reading, writing in decimal, padding, re-reversing and appending the check digit gives the run back |
| Encrypt.DecodeEncodeRun | encrypt.go:20-112 | decoding an encoded run gives the run back |
| Encrypt.DecodeRunCheckDigit | encrypt.go:74-105 | the check digit of an obfuscated run ends its decoding |
| Encrypt.UpperDigits | encrypt.go:23 | upper-casing leaves a digit string alone |
| Encrypt.EncodedWhole | encrypt.go:20-64 | a string that is one digit run encodes as that run |
| Encrypt.DecodedWhole | encrypt.go:66-112 | a string that is one obfuscated run decodes as that run |
| Encrypt.MaskedWhole | encrypt.go:114-132 | a string that is one digit run masks as that run |
| Encrypt.RoundTrip | encrypt.go:20-112 | `Decode(Encode(s)) == s` for a string of 8 to 20 digits |
| Encrypt.EncodedLength | encrypt.go:20-64 | `Encode` keeps the length of every string |
| Encrypt.MaskRunShape | encrypt.go:119-125 | a masked run keeps the first and last 4 digits of a run of 10 or more, or 3 of a run of 8 or 9, with stars in between |
| Encrypt.MaskedLength | encrypt.go:114-132 | `Mask` keeps the length of every string |
| Encrypt.NoMatchSplit | utils.go:18-21 | text without a match is one unmatched pair, or none when empty |
| Encrypt.UpperKeepsDigitMatches | encrypt.go:23 | upper-casing neither makes nor breaks a digit run |
| Encrypt.EncodedPassThrough | encrypt.go:20-132 | text without a digit run is only upper-cased by `Encode` and left as it is by `Mask` |
| Encrypt.DecodedPassThrough | encrypt.go:108 | text without an obfuscated run is left as it is by `Decode` |
| Encrypt.LongRunIsCut | encrypt.go:23-117 | a run of 21-27 digits has its first 20 encoded (or masked) and the rest passed through |
| Encrypt.MaskTenDigits | encrypt.go:121-122 | `Mask("1234567890") == "1234**7890"` |
| Encrypt.MaskEightDigits | encrypt.go:123-124 | `Mask("12345678") == "123**678"` |
| Encrypt.EncodeSegmentsSnoc | encrypt.go:60 | one round of the pair loop appends one encoded segment |
| Encrypt.DecodeSegmentsSnoc | encrypt.go:108 | one round of the pair loop appends one decoded segment |
| Encrypt.MaskSegmentsSnoc | encrypt.go:128 | one round of the pair loop appends one masked segment |
| Storage.HasSignature | storage.go:39-61 | signing is on exactly when the flag is set and server URL, bucket, access key and signature key are all non-empty |
| Storage.TrimPrefix | storage.go:90 | `strings.TrimPrefix` removes the prefix when present and changes nothing otherwise |
| Storage.TrimSuffix | storage.go:99 | `strings.TrimSuffix` removes the suffix when present and changes nothing otherwise |
| Storage.BeforeQuery | storage.go:124 | `strings.Split(s, "?")[0]` is a prefix without `?`, followed in `s` by `?` when shorter |
| Storage.UnBindSignature | storage.go:119-130 | the empty string stays empty; otherwise the result holds no `?` and is the text before the first `?`, with one leading `base + "/"` removed when present |
| Storage.UnBindStrips | storage.go:119-130 | a non-empty string whose text before the query starts with `base + "/"` loses exactly that prefix; any other keeps its text before the query whole |
| Storage.Rooted | storage.go:90 | the rooted path starts with `/` and equals the path after the leading `/` |
| Storage.BindAll | pqarray/storage.go:23-25 | binding a list gives one URL per element |
| Storage.StorageOptions.constructor | storage.go:63-68 | a fresh configuration has an empty cache and no service calls |
| Storage.StorageOptions.Expire | storage.go:154 | expiry drops the cached token and nothing else |
| Storage.StorageOptions.GetStorageToken | storage.go:144-158 | the method moves the cache and the call counter exactly as `TokenStep` says and returns its token |
| Storage.StorageOptions.BindSignature | storage.go:86-116 | the method moves the token state and returns the URL exactly as `BindStep` says |
| Storage.StorageOptions.UploadFile | storage.go:133-141 | the method moves the token state and the upload counter and returns exactly as `UploadStep` says |
| Storage.StorageOptions.Scan | storage.go:73-79 | a string is bound as `BindStep` says; another dynamic type changes neither the value nor the cache |
| Storage.ColumnValue | storage.go:81-163 | `Value` and `String` give the unbound path, which holds no `?` |
| Storage.BeforeQueryNoQuery | storage.go:124 | text without `?` is kept whole |
| Storage.BeforeQueryAppend | storage.go:124 | text before a `?` is cut exactly there |
| Storage.TokenStepCases | storage.go:144-158 | a hit returns the cached token and changes nothing; a miss asks the service once, caches a non-empty answer, and returns `""` |
| Storage.TokenAfterMiss | storage.go:145-155 | after a miss that fetched a token, the next lookup returns that token without asking again |
| Storage.BindEmpty | storage.go:87-115 | an empty unbound path binds to `""` and leaves the cache alone |
| Storage.BindUnsigned | storage.go:90-112 | with signing off or no cached token, the URL is the base, `/` and the path, with no `?` |
| Storage.DefaultBindsRooted | storage.go:63-68 | the default configuration never signs: binding drops the query, keeps the path with one leading `/` (or gives `""` for an empty path) and leaves the token state alone |
| Storage.BindSigned | storage.go:92-105 | with signing on and a cached token, the URL is the base and rooted path, `?`, token, `,` and the HMAC of the rooted path |
| Storage.NoQueryInUrl | storage.go:110 | base plus rooted path holds no `?` |
| Storage.UnbindUrl | storage.go:119-130 | unbinding the URL of a rooted path, with or without query, gives the path without its leading `/` |
| Storage.BindUnbind | storage.go:86-130 | `UnBind(Bind(x)) == TrimPrefix(UnBind(x), "/")` when the server URL has no `?` |
| Storage.FirstUnsignedRestSigned | storage.go:144-157 | with signing on and an empty cache, the first element binds unsigned and, when the fetch gave a token, every later one is signed with it |
| Storage.AllSignedOnHit | storage.go:92-105 | with a cached token, every element is signed with it and the cache stays the same |
| Storage.UploadNeedsCachedToken | storage.go:133-141 | on a miss nothing is uploaded and `""` is returned; on a hit with a non-empty token the upload service is called once with it |
| Choices.FirstMatch | choice.go:24-31 | the index of the first entry with the code, or none when no entry has it |
| Choices.ChoiceType.constructor | pqarray/choice.go:25 | a new choice column has the given `Meta` and the zero choice |
| Choices.ChoiceType.Update | choice.go:20-42 | the loop leaves `Meta` alone and sets the choice and result exactly as `Updated` says |
| Choices.ChoiceType.Scan | choice.go:45-51 | an `int` is truncated to a byte and selected; any other dynamic type changes nothing |
| Choices.ChoiceType.Value | choice.go:53-55 | the stored value is the current choice's code |
| Choices.FirstMatchAt | choice.go:24-29 | an entry with the code and none before it is the first match |
| Choices.UpdateFound | choice.go:23-31 | a listed code selects its first entry and succeeds |
| Choices.UpdateFallback | choice.go:33-35 | an unlisted code falls back to the first entry and fails |
| Choices.UpdateEmpty | choice.go:36-39 | with nothing listed, any code is accepted with an empty label |
| Choices.UpdateOutcome | choice.go:20-42 | success exactly when the code is listed or nothing is; the choice is listed whenever something is, carries the code on success, and is the first entry on failure |
| Choices.ScanUnlisted | choice.go:46-48 | scanning `int` `v` with nothing listed stores `v mod 256` |
| Choices.UpdateIdempotent | choice.go:20-42 | updating twice with a code leaves `Meta` alone and gives the same choice and result as one update from the old state |
| Choices.ScanInt64 | choice.go:45-51 | an `int64` leaves the choice as it was, while the same number as an `int` selects by its low byte |
| JsonQuery.DotJoinLength | json.go:200-205 | the dotted path is as long as the keys plus one dot between each two |
| JsonQuery.JsonQueryJoin | json.go:195-219 | the builder gives `"$."` and the keys joined by `.`, and its length is exactly the capacity reserved |
| JsonQuery.JSONQueryExpression.JSONQuery | json.go:89-91 | only the column is set; every flag is false |
| JsonQuery.JSONQueryExpression.Extract | json.go:94-99 | sets `extract` and `path`, returns the receiver, and leaves the other fields unchanged |
| JsonQuery.JSONQueryExpression.HasKey | json.go:102-107 | overwrites `keys`, sets `hasKeys`, returns the receiver, and leaves the other fields unchanged |
| JsonQuery.JSONQueryExpression.Equals | json.go:110-116 | overwrites `keys`, sets `equals` and `equalsValue`, returns the receiver, and leaves the other fields unchanged |
| JsonQuery.ChainKeepsFlags | json.go:102-116 | a `HasKey` then `Equals` chain keeps both flags, with the keys of the last call |
| PqChoice.ChoiceArray.constructor | pqarray/choice.go:10-13 | a new array has no choices and the given `Meta` |
| PqChoice.ChoiceArray.Scan | pqarray/choice.go:20-33 | appends one fresh choice per parsed integer, in order, after the existing ones, each with the array's `Meta` and updated with the integer's low byte; unchanged on a parse failure |
| PqChoice.ChoiceArray.Array | pqarray/choice.go:45-53 | the code of every choice, in order |
| PqChoice.ChoiceArray.Value | pqarray/choice.go:35-43 | the same codes as `Array`, widened |
| PqStorage.StorageArrayScan | pqarray/storage.go:17-31 | the array becomes `BindAll` of the parsed strings, with the token state threaded; unchanged on a parse failure |
| PqStorage.BindAllSuffix | pqarray/storage.go:23-25 | one loop round binds one element and threads the token state |
| PqStorage.StorageArrayArray | pqarray/storage.go:43-51 | the unbound path of every element, in order |
| PqStorage.StorageArrayValue | pqarray/storage.go:33-41 | the stored strings are exactly the unbound paths `Array` returns |
| PqStorage.UnbindAfterBindAll | pqarray/storage.go:17-51 | reading a scanned array back gives the unbound form of every parsed value without its leading `/`, whatever the cache held |

## Left out

- General Go regular expressions: only the two patterns the codec compiles are modelled. A pattern that compiles to an empty match would make the tokenizer loop forever; no modelled pattern matches fewer than 8 characters. A compile failure is the caller passing `None`.
- HMAC-SHA256 (storage.go:166-171) is a function-valued constant `hmac(key, data)`; SHA-256 and hex encoding are not modelled.
- The cache's time to live and clock (`Expired`, go-cache expiry): the cache is a map, and the abstract step `Expire` drops the token.
- The token and upload services are function-valued constants indexed by call number. The pluggable `EncryptService` is fixed to the default service.
- Concurrent use of the `StorageOptions` and `EncryptOptions` globals.
- Encrypt.ToUpper: only ASCII letters are upper-cased, because Unicode case mapping is not modelled. Go indexes bytes where the model indexes characters, which agrees on the ASCII digits every match consists of.
- The ignored errors of `strconv.Atoi` and `strconv.ParseInt` in the codec: every character they read is a digit by the pattern.
- `big.Int.SetString` on an empty hex part (a match made only of stars) is read as 0.
- Storage.StorageOptions.GetStorageToken: `Cache.Set` records the TTL, which is not modelled.
- Storage.StorageOptions.GetStorageToken: the default `StorageOptions` (storage.go:63-68) sets no `Service`, so a cache miss without a configured service dereferences nil and panics (storage.go:151). That miss is reached from `UploadFile` (storage.go:134) and from `BindSignature` with signing on. The model always holds a token service and an upload service, so it does not capture this panic.
- time.go (time-zone database and clock), password.go (bcrypt) and coordinate.go (floating point, EWKB decoding).
- `JSON.Scan`, `GormValue`, `String`, `GormDBDataType` and `JSONQueryExpression.Build`: JSON encoding and dialect-specific SQL emission.
- The other lib/pq array types (bool, int, float, byte, string, json). The array text format `{…}` is also out: `Scan` receives the parsed list or `None`, and `Value` returns the element list rather than its text encoding.
- `ChoiceType.MarshalJSON`, `UnmarshalJSON` and `String` (JSON and `fmt` formatting). `GormDataType` and the other type-name methods.
- `ChoiceType.Scan` of an `int64` (the driver's usual integer type): the type assertion to `int` fails, so nothing happens. The model reproduces this (`Choices.ScanInt64`) without modelling the driver.
