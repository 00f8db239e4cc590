/**
 * The typed accessors over the process environment: each looks a variable up, returns the
 * caller's default when the variable is absent or its text does not parse for the target
 * type, and the parsed value otherwise. The slice accessors split the text on a separator
 * and parse every piece, all or nothing.
 */
module Env {
  import opened Wrappers
  import opened Strings
  import opened Strconv

  /** The process environment as one call sees it: variable name to value. Accessors only read it. */
  type Environ = map<string, string>

  /** os.LookupEnv: the value of the variable named key, if it is set. */
  function LookupEnv(env: Environ, key: string): Option<string>
  {
    if key in env then Some(env[key]) else None
  }

  /** The policy of the scalar accessors: absent or unparsable gives the default, else the parsed value. */
  function GetWith<T>(env: Environ, key: string, parse: string -> Option<T>, defaultValue: T): T
  {
    match LookupEnv(env, key)
    case None => defaultValue
    case Some(val) =>
      match parse(val)
      case None => defaultValue
      case Some(v) => v
  }

  // ---------------------------------------------------------------- scalar accessors

  /** GetString: the raw value whenever the variable is set, the empty value included; the default only when it is not. */
  function GetString(env: Environ, key: string, defaultValue: string): (r: string)
    ensures key in env ==> r == env[key]
    ensures key !in env ==> r == defaultValue
  {
    match LookupEnv(env, key)
    case None => defaultValue
    case Some(val) => val
  }

  /** GetBool: true for a true spelling, false for a false spelling, the default for anything else or when unset. */
  function GetBool(env: Environ, key: string, defaultValue: bool): (r: bool)
    ensures key !in env ==> r == defaultValue
    ensures key in env && env[key] in TrueTokens ==> r
    ensures key in env && env[key] in FalseTokens ==> !r
    ensures key in env && env[key] !in TrueTokens + FalseTokens ==> r == defaultValue
  {
    GetWith(env, key, ParseBool, defaultValue)
  }

  /**
   * The Go integer type of the default (for a slice, of its elements), as the type switches
   * tell them apart: plain int/uint, the sized types, and any named type.
   */
  datatype IntKind = Plain | Bits8 | Bits16 | Bits32 | Bits64 | Named

  /**
   * The bitSize each case of the type switches passes to strconv: 0 (the platform width) for
   * plain int/uint, a sized type's own width, and 64 for any other (named) type.
   */
  function BitSizeOf(kind: IntKind): (b: BitSize)
    ensures b == 0 <==> kind == Plain
    ensures b == 8 <==> kind == Bits8
    ensures b == 16 <==> kind == Bits16
    ensures b == 32 <==> kind == Bits32
    ensures b == 64 <==> kind == Bits64 || kind == Named
  {
    match kind
    case Plain => 0
    case Bits8 => 8
    case Bits16 => 16
    case Bits32 => 32
    case Bits64 => 64
    case Named => 64
  }

  /** Whether v is a value of the signed Go type kind. */
  predicate SignedFits(kind: IntKind, v: int)
  {
    MinInt(BitSizeOf(kind)) <= v <= MaxInt(BitSizeOf(kind))
  }

  /** Whether v is a value of the unsigned Go type kind. */
  predicate UnsignedFits(kind: IntKind, v: int)
  {
    0 <= v <= MaxUint(BitSizeOf(kind))
  }

  /** The parser GetInt and GetIntSlice select for kind: ParseInt at that kind's width, in base. */
  function IntParser(base: int, kind: IntKind): string -> Option<int>
  {
    s => ParseInt(s, base, BitSizeOf(kind))
  }

  /** The parser GetUint and GetUintSlice select for kind: ParseUint at that kind's width, in base. */
  function UintParser(base: int, kind: IntKind): string -> Option<nat>
  {
    s => ParseUint(s, base, BitSizeOf(kind))
  }

  /**
   * GetInt: the number the text writes in base when it fits the default's type, the default
   * when it does not, when the text is malformed, or when the variable is unset. The result
   * is always a value of the default's type.
   */
  function GetInt(env: Environ, key: string, base: int, kind: IntKind, defaultValue: int): (r: int)
    requires SignedFits(kind, defaultValue)
    ensures SignedFits(kind, r)
    ensures key !in env ==> r == defaultValue
    ensures key in env && ParseInt(env[key], base, BitSizeOf(kind)).None? ==> r == defaultValue
    ensures key in env && ParseInt(env[key], base, BitSizeOf(kind)).Some? ==>
      r == ParseInt(env[key], base, BitSizeOf(kind)).value
  {
    GetWith(env, key, IntParser(base, kind), defaultValue)
  }

  /**
   * GetUint: the unsigned number the text writes in base when it fits the default's type,
   * the default otherwise. The result is always a value of the default's type.
   */
  function GetUint(env: Environ, key: string, base: int, kind: IntKind, defaultValue: nat): (r: nat)
    requires UnsignedFits(kind, defaultValue)
    ensures UnsignedFits(kind, r)
    ensures key !in env ==> r == defaultValue
    ensures key in env && ParseUint(env[key], base, BitSizeOf(kind)).None? ==> r == defaultValue
    ensures key in env && ParseUint(env[key], base, BitSizeOf(kind)).Some? ==>
      r == ParseUint(env[key], base, BitSizeOf(kind)).value
  {
    GetWith(env, key, UintParser(base, kind), defaultValue)
  }

  /** time.Duration: a signed 64-bit count of nanoseconds. */
  type Duration = d: int | -0x8000_0000_0000_0000 <= d <= 0x7FFF_FFFF_FFFF_FFFF

  /**
   * GetDuration: what parseDuration (time.ParseDuration) reads from the text, or the default
   * when it reports an error or the variable is unset.
   */
  function GetDuration(env: Environ, key: string, defaultValue: Duration,
                       parseDuration: string -> Option<Duration>): (r: Duration)
    ensures key !in env ==> r == defaultValue
    ensures key in env && parseDuration(env[key]).None? ==> r == defaultValue
    ensures key in env && parseDuration(env[key]).Some? ==> r == parseDuration(env[key]).value
  {
    GetWith(env, key, parseDuration, defaultValue)
  }

  /** The components of a net/url.URL the model keeps. */
  datatype URL = URL(scheme: string, opaquePart: string, user: string, host: string,
                     path: string, rawQuery: string, fragment: string)

  /**
   * GetURL: a copy of what parseRequestURI (url.ParseRequestURI) reads from the text, or the
   * default when it reports an error or the variable is unset.
   */
  function GetURL(env: Environ, key: string, defaultValue: URL,
                  parseRequestURI: string -> Option<URL>): (r: URL)
    ensures key !in env ==> r == defaultValue
    ensures key in env && parseRequestURI(env[key]).None? ==> r == defaultValue
    ensures key in env && parseRequestURI(env[key]).Some? ==> r == parseRequestURI(env[key]).value
  {
    GetWith(env, key, parseRequestURI, defaultValue)
  }

  /** GetBool reads FormatBool's text back, whatever the default. */
  lemma GetBoolRoundTrip(env: Environ, key: string, b: bool, defaultValue: bool)
    ensures GetBool(env[key := FormatBool(b)], key, defaultValue) == b
  {
  }

  /**
   * GetInt reads the canonical text of v (decimal when base is 0) back as v exactly when v
   * is a value of the default's type; a value outside it, such as 300 for int8, gives the default.
   */
  lemma GetIntRoundTrip(env: Environ, key: string, base: int, kind: IntKind, v: int, defaultValue: int)
    requires base == 0 || 2 <= base <= 36
    requires SignedFits(kind, defaultValue)
    ensures GetInt(env[key := FormatInt(v, if base == 0 then 10 else base)], key, base, kind, defaultValue)
      == if SignedFits(kind, v) then v else defaultValue
  {
    ParseFormatInt(v, base, BitSizeOf(kind));
  }

  /**
   * GetUint reads the canonical text of n (decimal when base is 0) back as n exactly when n
   * is a value of the default's type; a value outside it, such as 300 for uint8, gives the default.
   */
  lemma GetUintRoundTrip(env: Environ, key: string, base: int, kind: IntKind, n: nat, defaultValue: nat)
    requires base == 0 || 2 <= base <= 36
    requires UnsignedFits(kind, defaultValue)
    ensures GetUint(env[key := FormatUint(n, if base == 0 then 10 else base)], key, base, kind, defaultValue)
      == if UnsignedFits(kind, n) then n else defaultValue
  {
    ParseFormatUint(n, base, BitSizeOf(kind));
  }

  // ---------------------------------------------------------------- slice accessors

  /**
   * The all-or-nothing outcome of parsing pieces: the default when some piece fails to
   * parse, otherwise one value per piece, in order, each the parse of its piece.
   */
  ghost predicate AllOrNothing<T>(pieces: seq<string>, parse: string -> Option<T>, defaultValue: seq<T>, r: seq<T>)
  {
    if exists i :: 0 <= i < |pieces| && parse(pieces[i]).None? then r == defaultValue
    else |r| == |pieces| && forall i :: 0 <= i < |pieces| ==> parse(pieces[i]) == Some(r[i])
  }

  /** parse applied to every piece: Some of all the values in order, or None as soon as one piece fails. */
  function ParseAll<T>(pieces: seq<string>, parse: string -> Option<T>): (r: Option<seq<T>>)
    ensures r.Some? <==> forall i :: 0 <= i < |pieces| ==> parse(pieces[i]).Some?
    ensures r.Some? ==> |r.value| == |pieces|
    ensures r.Some? ==> forall i :: 0 <= i < |pieces| ==> parse(pieces[i]) == Some(r.value[i])
  {
    if pieces == [] then Some([])
    else
      var front := ParseAll(pieces[..|pieces| - 1], parse);
      assert forall i :: 0 <= i < |pieces| - 1 ==> pieces[..|pieces| - 1][i] == pieces[i];
      match parse(pieces[|pieces| - 1])
      case None => None
      case Some(x) => if front.Some? then Some(front.value + [x]) else None
  }

  /** What a slice accessor returns: the default when unset or when any piece fails, else every piece parsed. */
  function SliceValue<T>(env: Environ, key: string, sep: string, parse: string -> Option<T>, defaultValue: seq<T>): seq<T>
  {
    match LookupEnv(env, key)
    case None => defaultValue
    case Some(val) =>
      match ParseAll(Split(val, sep), parse)
      case None => defaultValue
      case Some(xs) => xs
  }

  /**
   * The loop every slice accessor runs: split the value on sep, parse the pieces in order into
   * a new slice, and return the default as soon as one piece fails.
   */
  method GetSliceOf<T>(env: Environ, key: string, sep: string, parse: string -> Option<T>, defaultValue: seq<T>)
    returns (r: seq<T>)
    ensures key !in env ==> r == defaultValue
    ensures key in env ==> AllOrNothing(Split(env[key], sep), parse, defaultValue, r)
    ensures r == SliceValue(env, key, sep, parse, defaultValue)
  {
    var lookup := LookupEnv(env, key);
    if lookup.None? {
      return defaultValue;
    }
    var pieces := Split(lookup.value, sep);
    var parsed: seq<T> := [];
    for i := 0 to |pieces|
      invariant |parsed| == i
      invariant forall j :: 0 <= j < i ==> parse(pieces[j]) == Some(parsed[j])
    {
      var p := parse(pieces[i]);
      if p.None? {
        return defaultValue;
      }
      parsed := parsed + [p.value];
    }
    return parsed;
  }

  /** The "parser" of GetStringSlice: every piece is taken as it is. */
  function Verbatim(s: string): Option<string>
  {
    Some(s)
  }

  /** GetStringSlice: the pieces of the value, verbatim and in order, whenever the variable is set. */
  method GetStringSlice(env: Environ, key: string, sep: string, defaultValue: seq<string>) returns (r: seq<string>)
    ensures key !in env ==> r == defaultValue
    ensures key in env ==> r == Split(env[key], sep) && Join(r, sep) == env[key]
    ensures key in env && sep != "" ==> |r| >= 1
    ensures r == SliceValue(env, key, sep, Verbatim, defaultValue)
  {
    r := GetSliceOf(env, key, sep, Verbatim, defaultValue);
  }

  /** GetBoolSlice: one boolean per piece when every piece is a true or false spelling, the default otherwise. */
  method GetBoolSlice(env: Environ, key: string, sep: string, defaultValue: seq<bool>) returns (r: seq<bool>)
    ensures key !in env ==> r == defaultValue
    ensures key in env ==> AllOrNothing(Split(env[key], sep), ParseBool, defaultValue, r)
    ensures r == SliceValue(env, key, sep, ParseBool, defaultValue)
    ensures key in env ==>
      var pieces := Split(env[key], sep);
      if forall i :: 0 <= i < |pieces| ==> pieces[i] in TrueTokens + FalseTokens
      then |r| == |pieces| && forall i :: 0 <= i < |pieces| ==> (r[i] <==> pieces[i] in TrueTokens)
      else r == defaultValue
  {
    r := GetSliceOf(env, key, sep, ParseBool, defaultValue);
  }

  /**
   * GetIntSlice: one number per piece, each parsed at the width of the element type, when
   * every piece parses; the default otherwise. Every element is a value of the element type.
   */
  method GetIntSlice(env: Environ, key: string, sep: string, base: int, kind: IntKind, defaultValue: seq<int>)
    returns (r: seq<int>)
    requires forall i :: 0 <= i < |defaultValue| ==> SignedFits(kind, defaultValue[i])
    ensures forall i :: 0 <= i < |r| ==> SignedFits(kind, r[i])
    ensures key !in env ==> r == defaultValue
    ensures key in env ==> AllOrNothing(Split(env[key], sep), IntParser(base, kind), defaultValue, r)
    ensures r == SliceValue(env, key, sep, IntParser(base, kind), defaultValue)
  {
    r := GetSliceOf(env, key, sep, IntParser(base, kind), defaultValue);
  }

  /**
   * GetUintSlice: one unsigned number per piece, each parsed at the width of the element
   * type, when every piece parses; the default otherwise.
   */
  method GetUintSlice(env: Environ, key: string, sep: string, base: int, kind: IntKind, defaultValue: seq<nat>)
    returns (r: seq<nat>)
    requires forall i :: 0 <= i < |defaultValue| ==> UnsignedFits(kind, defaultValue[i])
    ensures forall i :: 0 <= i < |r| ==> UnsignedFits(kind, r[i])
    ensures key !in env ==> r == defaultValue
    ensures key in env ==> AllOrNothing(Split(env[key], sep), UintParser(base, kind), defaultValue, r)
    ensures r == SliceValue(env, key, sep, UintParser(base, kind), defaultValue)
  {
    r := GetSliceOf(env, key, sep, UintParser(base, kind), defaultValue);
  }

  /** GetDurationSlice: one duration per piece when parseDuration reads every piece, the default otherwise. */
  method GetDurationSlice(env: Environ, key: string, sep: string, defaultValue: seq<Duration>,
                          parseDuration: string -> Option<Duration>) returns (r: seq<Duration>)
    ensures key !in env ==> r == defaultValue
    ensures key in env ==> AllOrNothing(Split(env[key], sep), parseDuration, defaultValue, r)
    ensures r == SliceValue(env, key, sep, parseDuration, defaultValue)
  {
    r := GetSliceOf(env, key, sep, parseDuration, defaultValue);
  }

  /** GetURLSlice: one URL per piece when parseRequestURI reads every piece, the default otherwise. */
  method GetURLSlice(env: Environ, key: string, sep: string, defaultValue: seq<URL>,
                     parseRequestURI: string -> Option<URL>) returns (r: seq<URL>)
    ensures key !in env ==> r == defaultValue
    ensures key in env ==> AllOrNothing(Split(env[key], sep), parseRequestURI, defaultValue, r)
    ensures r == SliceValue(env, key, sep, parseRequestURI, defaultValue)
  {
    r := GetSliceOf(env, key, sep, parseRequestURI, defaultValue);
  }

  /**
   * When GetIntSlice succeeds, element i is what GetInt returns for piece i alone. Both go
   * through IntParser, so this holds by construction: that GetIntSlice's type switch picks
   * the same width as GetInt's is read off the source, where the two switches have the same
   * cases, and the model states it by giving both the one table BitSizeOf.
   */
  lemma IntSliceMatchesScalar(env: Environ, key: string, sep: string, base: int, kind: IntKind,
                              defaultValue: seq<int>, scalarDefault: int, i: nat)
    requires SignedFits(kind, scalarDefault)
    requires key in env
    requires var pieces := Split(env[key], sep);
      forall j :: 0 <= j < |pieces| ==> ParseInt(pieces[j], base, BitSizeOf(kind)).Some?
    requires i < |Split(env[key], sep)|
    ensures var r := SliceValue(env, key, sep, IntParser(base, kind), defaultValue);
      i < |r| && r[i] == GetInt(map[key := Split(env[key], sep)[i]], key, base, kind, scalarDefault)
  {
  }

  /**
   * The unsigned counterpart: when GetUintSlice succeeds, element i is what GetUint returns
   * for piece i alone. As above, both go through UintParser and the one table BitSizeOf.
   */
  lemma UintSliceMatchesScalar(env: Environ, key: string, sep: string, base: int, kind: IntKind,
                               defaultValue: seq<nat>, scalarDefault: nat, i: nat)
    requires UnsignedFits(kind, scalarDefault)
    requires key in env
    requires var pieces := Split(env[key], sep);
      forall j :: 0 <= j < |pieces| ==> ParseUint(pieces[j], base, BitSizeOf(kind)).Some?
    requires i < |Split(env[key], sep)|
    ensures var r := SliceValue(env, key, sep, UintParser(base, kind), defaultValue);
      i < |r| && r[i] == GetUint(map[key := Split(env[key], sep)[i]], key, base, kind, scalarDefault)
  {
  }

  /** The canonical texts of xs, in the base FormatInt uses for base (decimal for base 0). */
  function FormatInts(xs: seq<int>, base: int): (texts: seq<string>)
    requires base == 0 || 2 <= base <= 36
    ensures |texts| == |xs|
  {
    seq(|xs|, i requires 0 <= i < |xs| => FormatInt(xs[i], if base == 0 then 10 else base))
  }

  /**
   * GetIntSlice reads the joined canonical texts of xs back as xs exactly when every number
   * is a value of the element type, and gives the whole default otherwise: all or nothing.
   */
  lemma IntSliceRoundTrip(env: Environ, key: string, c: char, base: int, kind: IntKind,
                          xs: seq<int>, defaultValue: seq<int>)
    requires base == 0 || 2 <= base <= 36
    requires |xs| >= 1
    requires !IsDigitIn(c, 36) && c != '-'
    ensures SliceValue(env[key := Join(FormatInts(xs, base), [c])], key, [c], IntParser(base, kind), defaultValue)
      == if forall i :: 0 <= i < |xs| ==> SignedFits(kind, xs[i]) then xs else defaultValue
  {
    var texts := FormatInts(xs, base);
    ParseAllFormatted(xs, c, base, kind);
    SplitOfJoin(texts, c);
  }

  /** Parsing the canonical texts of xs gives xs when every number fits, and fails otherwise; no text holds c. */
  lemma ParseAllFormatted(xs: seq<int>, c: char, base: int, kind: IntKind)
    requires base == 0 || 2 <= base <= 36
    requires !IsDigitIn(c, 36) && c != '-'
    ensures forall i :: 0 <= i < |xs| ==> c !in FormatInts(xs, base)[i]
    ensures ParseAll(FormatInts(xs, base), IntParser(base, kind))
      == if forall i :: 0 <= i < |xs| ==> SignedFits(kind, xs[i]) then Some(xs) else None
  {
    var texts := FormatInts(xs, base);
    var parse := IntParser(base, kind);
    forall i | 0 <= i < |texts|
      ensures c !in texts[i]
      ensures parse(texts[i]) == if SignedFits(kind, xs[i]) then Some(xs[i]) else None
    {
      FormattedPiece(xs[i], c, base, kind);
    }
    if forall i :: 0 <= i < |xs| ==> SignedFits(kind, xs[i]) {
      ParseAllOfValues(texts, parse, xs);
    } else {
      var i :| 0 <= i < |xs| && !SignedFits(kind, xs[i]);
      assert parse(texts[i]).None?;
    }
  }

  /** The canonical text of x holds no c, and GetIntSlice's parser reads it back exactly when x fits. */
  lemma FormattedPiece(x: int, c: char, base: int, kind: IntKind)
    requires base == 0 || 2 <= base <= 36
    requires !IsDigitIn(c, 36) && c != '-'
    ensures var text := FormatInt(x, if base == 0 then 10 else base);
      c !in text && IntParser(base, kind)(text) == if SignedFits(kind, x) then Some(x) else None
  {
    var b := if base == 0 then 10 else base;
    FormatIntChars(x, b);
    ParseFormatInt(x, base, BitSizeOf(kind));
  }

  /** When every piece parses to the matching value of xs, ParseAll gives exactly xs. */
  lemma ParseAllOfValues<T>(pieces: seq<string>, parse: string -> Option<T>, xs: seq<T>)
    requires |pieces| == |xs|
    requires forall i :: 0 <= i < |pieces| ==> parse(pieces[i]) == Some(xs[i])
    ensures ParseAll(pieces, parse) == Some(xs)
  {
    var all := ParseAll(pieces, parse);
    assert all.Some?;
    assert forall i :: 0 <= i < |xs| ==> all.value[i] == xs[i];
    assert all.value == xs;
  }
}
