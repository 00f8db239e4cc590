# Typed environment accessors, modelled in Dafny

A model of the Go package `env` (`env.go`): typed get-with-default accessors over the
process environment. Every accessor looks the variable up; when it is absent it returns the
caller's default; otherwise it parses the raw text for the target type and returns the parsed
value, or the default when parsing fails. The slice accessors split the text on a separator
first and parse the pieces in a loop that builds a new slice, returning the default as soon as
one piece fails (all or nothing).

Layout:

- `wrappers.dfy` — `Option`, the result of every parser (`None` stands for Go's non-nil error).
- `strings.dfy` — `strings.Split` (with `Index`, `Join` and the one-piece-per-character split
  for an empty separator). Joining the split pieces gives the value back, and every piece but
  the last ends at the leftmost occurrence of the separator, which determines the split. For
  a one-character separator that no piece contains, splitting the joined pieces gives them back.
- `strconv.dfy` — `strconv.ParseBool`, `ParseInt` and `ParseUint` (digits in bases 2 to 36,
  base 0 with the `0b`/`0o`/`0x`/leading-`0` prefixes, an optional sign for `ParseInt`, the
  range check for the selected width), and `FormatBool`/`FormatInt`/`FormatUint` as the
  canonical texts they read back. Lemmas also say what other numerals read as: a `+` sign,
  leading zeros, upper-case digits and the base-0 prefixes.
- `env.dfy` — the accessors. The environment is an immutable `map<string, string>` passed to
  every accessor, so an accessor cannot change it. Go's type switch on the default's type
  becomes the `IntKind` enum and the `BitSizeOf` table (plain `int`/`uint` pass bitSize 0,
  i.e. the platform width, sized types their width, any named type 64). The scalar accessors
  are functions; the slice accessors are methods running one shared loop, `GetSliceOf`, whose
  invariant is that the slice built so far holds the parse of every piece processed so far.
  Each of the six is proved equal to the function `SliceValue` and to the all-or-nothing
  outcome `AllOrNothing`.
- `env_examples.dfy` — the cases of `env_test.go` and of the documentation comments, proved
  about the model.

`strings.Split` accepts an empty separator and then yields one piece per character (none for
an empty value); `Strings.Split` models that.

## Model

| member | source | states |
|---|---|---|
| `Strings.Split` | env.go:209 | joining the pieces with the separator gives back the value; a non-empty separator yields at least one piece, none containing the separator, each but the last ending at the leftmost occurrence; an empty separator yields piece i = character i |
| `Strings.SplitOn` | env.go:229 | splitting on a non-empty separator: at least one piece, no piece contains the separator, each piece but the last ends at the leftmost occurrence after its start, and the pieces joined with it are the input |
| `Strings.SplitOnUnique` | env.go:209 | any list of pieces that joins back to the value, whose last piece holds no separator and whose other pieces end at the leftmost occurrence, is the split: SplitOn's contract fixes its result |
| `Strings.Explode` | env.go:209 | splitting on the empty separator: one single-character piece per character, in order |
| `Strings.SplitOfJoin` | env.go:255 | for a one-character separator that no piece contains, splitting the joined pieces gives back exactly those pieces |
| `Strconv.ParseBool` | env.go:60 | true exactly for 1, t, T, TRUE, true, True; false exactly for 0, f, F, FALSE, false, False; an error for any other text |
| `Strconv.ParseFormatBool` | env.go:234 | ParseBool reads FormatBool's text back as the same boolean |
| `Strconv.DigitsValue` | env.go:83 | a text has a value in a base exactly when every character is a digit below the base |
| `Strconv.DigitsValueOfFormat` | env.go:85 | the digits FormatUint writes read back as the same number |
| `Strconv.ParseUint` | env.go:117 | a parsed unsigned value never exceeds the maximum of the selected width; an empty text or a base outside 0 and 2..36 is an error; with an explicit base, success exactly when the text is a non-empty run of digits below the base whose value fits |
| `Strconv.ParseInt` | env.go:83 | a parsed signed value lies between the minimum and maximum of the selected width; an empty text or a base outside 0 and 2..36 is an error |
| `Strconv.ParseIntSigns` | env.go:81-94 | a leading + changes nothing; an unsigned text reads as ParseUint reads it when that fits the signed maximum; a leading - negates a magnitude of at most 2^(bits-1), else an error |
| `Strconv.DigitsValueLeadingZero` | env.go:68-71 | a leading zero does not change the value of a run of digits |
| `Strconv.ParseLeadingZero` | env.go:68-71 | with an explicit base, a leading zero changes neither ParseUint nor ParseInt, after a minus sign included |
| `Strconv.DigitsValueIgnoresCase` | env.go:102-105 | texts that differ only in the case of their letters have the same digit value |
| `Strconv.ParseIgnoresCase` | env.go:102-105 | ParseUint and ParseInt give the same result for texts that differ only in letter case, in the digits and in the 0B/0O/0X prefixes |
| `Strconv.ParsePrefixed` | env.go:115-128 | with base 0, 0x/0X, 0o/0O, 0b/0B or a leading 0 followed by the digits of n in base 16, 8, 2 or 8 read as n when it fits, for ParseUint, ParseInt and the negated ParseInt |
| `Strconv.ParseRejectsNonDigitBase0` | env.go:81-94 | with base 0, a character after the sign that is not even a hexadecimal digit, unless it is an o or x right after a leading 0, makes ParseInt and ParseUint fail |
| `Strconv.ParseFormatUint` | env.go:115-128 | the canonical text of n (decimal for base 0) parses to n exactly when n fits the width, and is an error otherwise |
| `Strconv.ParseFormatInt` | env.go:81-94 | the canonical text of i, with its minus sign, parses to i exactly when i fits the signed width, and is an error otherwise |
| `Strconv.ParseUintRejectsSign` | env.go:119 | an unsigned parse rejects a leading + or - in every base |
| `Strconv.ParseIntRejectsNonDigit` | env.go:95-97 | a character that is not a digit of the base, after the optional sign, makes the signed parse fail |
| `Env.GetString` | env.go:37-48 | the raw value whenever the variable is set, the empty value included; the default only when it is unset |
| `Env.GetBool` | env.go:50-66 | true for a true spelling, false for a false spelling, the default for any other text or when unset |
| `Env.GetBoolRoundTrip` | env.go:54-65 | a variable set to FormatBool(b) reads as b whatever the default |
| `Env.BitSizeOf` | env.go:81-94 | the bitSize the type switches (also env.go:115-128, 261-286, 316-341) pass: 0, the platform width, exactly for plain int/uint; 8, 16, 32 exactly for the sized types; 64 for the 64-bit types and for any other named type |
| `Env.GetInt` | env.go:68-100 | the default when unset or when ParseInt fails at the width chosen from the default's type, the parsed value otherwise; the result is always a value of that type |
| `Env.GetIntRoundTrip` | env.go:72-99 | the canonical text of v reads back as v exactly when v fits the default's type, and gives the default otherwise (e.g. 300 for int8) |
| `Env.GetUint` | env.go:102-134 | the default when unset or when ParseUint fails at the width chosen from the default's type, the parsed value otherwise; the result is always a value of that type |
| `Env.GetUintRoundTrip` | env.go:106-133 | the canonical text of n reads back as n exactly when n fits the default's type, and gives the default otherwise (e.g. 300 for uint8) |
| `Env.GetDuration` | env.go:164-180 | the default when unset or when the duration parser reports an error, the parsed duration otherwise |
| `Env.GetURL` | env.go:182-198 | the default when unset or when the request-URI parser reports an error, a copy of the parsed URL otherwise |
| `Env.ParseAll` | env.go:288-297 | succeeds exactly when every piece parses, and then holds one value per piece, in order, each the parse of its piece |
| `Env.GetSliceOf` | env.go:231-242 | the default when unset; when set, the default if any piece fails, else one parsed value per piece in order (never a partial prefix); equals SliceValue |
| `Env.GetStringSlice` | env.go:200-217 | when set, exactly the split pieces, verbatim and in order, which join back to the value; at least one piece for a non-empty separator; the default only when unset |
| `Env.GetBoolSlice` | env.go:219-243 | when every piece is a boolean spelling, one boolean per piece that is true exactly for the true spellings; otherwise, or when unset, the whole default |
| `Env.GetIntSlice` | env.go:245-298 | all or nothing over ParseInt at the element type's width; every element is a value of the element type |
| `Env.GetUintSlice` | env.go:300-353 | all or nothing over ParseUint at the element type's width; every element is a value of the element type |
| `Env.GetDurationSlice` | env.go:355-379 | all or nothing over the duration parser: the default when unset or when any piece fails, else one duration per piece in order |
| `Env.GetURLSlice` | env.go:381-405 | all or nothing over the request-URI parser: the default when unset or when any piece fails, else one URL per piece in order |
| `Env.IntSliceMatchesScalar` | env.go:258-286 | when every piece parses, element i of the signed slice is what GetInt returns for piece i alone: the slice uses the scalar width table, the same width for every element |
| `Env.UintSliceMatchesScalar` | env.go:313-341 | the same for the unsigned slice and GetUint |
| `Env.IntSliceRoundTrip` | env.go:249-298 | the canonical texts of xs joined with a separator character read back as xs exactly when every number fits the element type, and as the whole default otherwise |
| `EnvExamples.EmptyStringIsPresent` | env.go:38-40 | a variable set to the empty string reads as the empty string; an unset one reads as the default |
| `EnvExamples.BoolExamples` | env_test.go:42-65 | "t" reads as true; "invalid" gives the default |
| `EnvExamples.IntExamples` | env_test.go:67-91 | "3" reads as 3 for every signed type in base 10; "invalid" gives the default |
| `EnvExamples.UintWidthExamples` | env.go:118-123 | "300" gives the default for a uint8 default and 300 for a uint16 default |
| `EnvExamples.SplitExamples` | env_test.go:527-534 | "1:4:3" splits on ":" into "1", "4", "3" |
| `EnvExamples.IntSliceExample` | env_test.go:580-586 | "1:4:3" reads as [1, 4, 3] in place of the default [1, 2, 3] |
| `EnvExamples.IntSliceAllOrNothingExample` | env.go:288-292 | "1:4:x" gives the whole default [1, 2, 3] although "1" and "4" parse |
| `EnvExamples.BoolSliceExample` | env_test.go:552-559 | "t:t:t" reads as three trues |
| `EnvExamples.OverlappingSplitExample` | env.go:255 | "aaa" split on "aa" is "" and "a": the leftmost occurrence is taken |
| `EnvExamples.PlusSignExample` | env.go:68-71 | "+3" reads as 3 |
| `EnvExamples.LeadingZerosExample` | env.go:68-71 | "007" reads as 7 at 8 bits |
| `EnvExamples.UpperCaseExample` | env.go:102-105 | "FF" reads as 255 in base 16 at 8 bits |
| `EnvExamples.HexPrefixExample` | env.go:102-105 | "0x1F" reads as 31 with base 0 |
| `EnvExamples.NegativeHexExample` | env.go:68-71 | "-0x10" reads as -16 with base 0 at 8 bits |
| `EnvExamples.Base0Examples` | env.go:102-105 | with base 0, "08" and "0x" are errors and "0" reads as 0 |
| `EnvExamples.HundredTwentyEight` | env.go:84-85 | "-128" reads as -128 at 8 bits and "128" is out of range |

## Left out

- `os.LookupEnv` and the real process environment: the environment is an immutable map
  parameter, so changes made to it by other code while an accessor runs are not modelled.
- `GetFloat` (env.go:136-162): floating-point parsing and rounding to float32/float64.
- `time.ParseDuration` and `url.ParseRequestURI`: library code outside the package; both are
  parameters of type `string -> Option<...>` of the accessors that use them, so the model
  states the fallback and all-or-nothing behaviour for any such parser, not the grammar of
  durations or request URIs.
- `Env.URL` keeps seven of the fields of Go's `url.URL` (user information as text); `RawPath`,
  `ForceQuery`, `OmitHost` and `RawFragment` are not modelled.
- `Strconv.Magnitude`: does not accept the `_` digit separators that Go's parsers allow with
  base 0; such texts are errors in the model.
- `Strconv.IntSize`: fixed at 64; plain `int`/`uint` on 32-bit targets are not modelled.
- `Env.BitSizeOf`: a named integer type is parsed at 64 bits as in the source, but the model's
  range for it is the 64-bit range; Go's truncating conversion `V(parsedInt)` for a named type
  whose underlying type is narrower than 64 bits is not modelled.
- Go generics over named string and bool types: the conversion `V(val)` is the identity on the
  value and is not modelled separately.
- Go strings are byte strings and `strings.Split` on an empty separator splits into UTF-8
  sequences; the model's strings are sequences of characters.
- The slice accessors return the caller's default slice itself (same backing array) on
  fallback; Dafny sequences are values, so that aliasing is not captured.
- The distinct error values of strconv (syntax, range, base errors) collapse to `None`, as the
  accessors discard them.
