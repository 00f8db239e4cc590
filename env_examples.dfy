/**
 * The cases the repository's tests exercise, stated over the model: unset variables give the
 * default, "invalid" gives the default, canonical texts read back, and lists are all or nothing.
 */
module EnvExamples {
  import opened Wrappers
  import opened Strings
  import opened Strconv
  import opened Env

  /** A set but empty variable is returned as the empty string, not replaced by the default. */
  lemma EmptyStringIsPresent(env: Environ, key: string, defaultValue: string)
    ensures GetString(env[key := ""], key, defaultValue) == ""
    ensures GetString(env - {key}, key, defaultValue) == defaultValue
  {
  }

  /** "t" reads as true and "invalid" falls back to the default. */
  lemma BoolExamples(env: Environ, key: string)
    ensures GetBool(env[key := "t"], key, false)
    ensures GetBool(env[key := "invalid"], key, false) == false
    ensures GetBool(env[key := "invalid"], key, true) == true
  {
  }

  /** "3" reads as 3 for every signed type and base 10; "invalid" falls back to the default. */
  lemma IntExamples(env: Environ, key: string, kind: IntKind)
    ensures GetInt(env[key := "3"], key, 10, kind, 2) == 3
    ensures GetInt(env[key := "invalid"], key, 10, kind, 2) == 2
  {
    GetIntRoundTrip(env, key, 10, kind, 3, 2);
    assert FormatInt(3, 10) == "3";
    ParseIntRejectsNonDigit("invalid", 10, BitSizeOf(kind), 0);
  }

  /** 300 does not fit uint8, so the default comes back; it fits uint16 and is returned. */
  lemma UintWidthExamples(env: Environ, key: string)
    ensures GetUint(env[key := "300"], key, 10, Bits8, 2) == 2
    ensures GetUint(env[key := "300"], key, 10, Bits16, 2) == 300
  {
    GetUintRoundTrip(env, key, 10, Bits8, 300, 2);
    GetUintRoundTrip(env, key, 10, Bits16, 300, 2);
    assert FormatUint(300, 10) == FormatUint(30, 10) + [DigitChar(0)];
    assert FormatUint(30, 10) == FormatUint(3, 10) + [DigitChar(0)];
    assert FormatUint(300, 10) == "300";
  }

  /** "1:4:3" split on ":" gives the three pieces, and "1:4:x" gives "1", "4" and "x". */
  lemma SplitExamples()
    ensures Split("1:4:3", ":") == ["1", "4", "3"]
    ensures Split("1:4:x", ":") == ["1", "4", "x"]
  {
    SplitOfJoin(["1", "4", "3"], ':');
    assert Join(["1", "4", "3"], ":") == "1:4:3";
    SplitOfJoin(["1", "4", "x"], ':');
    assert Join(["1", "4", "x"], ":") == "1:4:x";
  }

  /** "1:4:3" reads as [1, 4, 3] in place of the default [1, 2, 3]. */
  lemma IntSliceExample(env: Environ, key: string, kind: IntKind)
    ensures SliceValue(env[key := "1:4:3"], key, ":", IntParser(10, kind), [1, 2, 3]) == [1, 4, 3]
  {
    var xs := [1, 4, 3];
    SmallValuesFit(kind, xs);
    JoinedTexts();
    IntSliceRoundTrip(env, key, ':', 10, kind, xs, [1, 2, 3]);
  }

  /** Numbers from 0 to 127 are values of every integer type. */
  lemma SmallValuesFit(kind: IntKind, xs: seq<int>)
    requires forall i :: 0 <= i < |xs| ==> 0 <= xs[i] <= 127
    ensures forall i :: 0 <= i < |xs| ==> SignedFits(kind, xs[i]) && UnsignedFits(kind, xs[i])
  {
    assert MinInt(BitSizeOf(kind)) <= 0 && 127 <= MaxInt(BitSizeOf(kind)) <= MaxUint(BitSizeOf(kind));
  }

  /** The canonical decimal texts of 1, 4 and 3 joined with ":" are "1:4:3". */
  lemma JoinedTexts()
    ensures Join(FormatInts([1, 4, 3], 10), ":") == "1:4:3"
  {
    assert FormatInt(1, 10) == "1" && FormatInt(4, 10) == "4" && FormatInt(3, 10) == "3";
    var texts := FormatInts([1, 4, 3], 10);
    assert texts == ["1", "4", "3"];
    assert Join(["1", "4", "3"], ":") == "1:4:3";
  }

  /** One malformed piece discards the parsed "1" and "4": the whole default comes back. */
  lemma IntSliceAllOrNothingExample(env: Environ, key: string, kind: IntKind)
    ensures SliceValue(env[key := "1:4:x"], key, ":", IntParser(10, kind), [1, 2, 3]) == [1, 2, 3]
  {
    SplitExamples();
    ParseIntRejectsNonDigit("x", 10, BitSizeOf(kind), 0);
    var pieces := Split("1:4:x", ":");
    assert IntParser(10, kind)(pieces[2]).None?;
  }

  /** "t:t:t" reads as three trues. */
  lemma BoolSliceExample(env: Environ, key: string)
    ensures SliceValue(env[key := "t:t:t"], key, ":", ParseBool, [true, false, true]) == [true, true, true]
  {
    SplitOfJoin(["t", "t", "t"], ':');
    assert Join(["t", "t", "t"], ":") == "t:t:t";
    ParseAllOfValues(["t", "t", "t"], ParseBool, [true, true, true]);
  }

  /** A separator that overlaps itself splits at its leftmost occurrence: "aaa" on "aa" is "" and "a". */
  lemma OverlappingSplitExample()
    ensures Split("aaa", "aa") == ["", "a"]
  {
    assert Join(["", "a"], "aa") == "aaa";
    assert ("" + "aa")[..2] == "aa";
    assert Leftmost("", "aa");
    assert !Contains("a", "aa");
    SplitOnUnique("aaa", "aa", ["", "a"]);
  }

  /** "+3" reads as 3: a plus sign is accepted. */
  lemma PlusSignExample()
    ensures ParseInt("+3", 10, 64) == Some(3)
  {
    ParseIntSigns("3", 10, 64);
    assert FormatUint(3, 10) == "3";
    ParseFormatUint(3, 10, 64);
  }

  /** "007" reads as 7: leading zeros are accepted. */
  lemma LeadingZerosExample()
    ensures ParseInt("007", 10, 8) == Some(7)
  {
    assert "0" + "07" == "007" && "0" + "7" == "07";
    ParseLeadingZero("07", 10, 8);
    ParseLeadingZero("7", 10, 8);
    assert FormatInt(7, 10) == "7";
    ParseFormatInt(7, 10, 8);
  }

  /** Upper-case digits are read: "FF" is 255 in base 16 and fits uint8. */
  lemma UpperCaseExample()
    ensures ParseUint("FF", 16, 8) == Some(255)
  {
    assert FormatUint(255, 16) == FormatUint(15, 16) + [DigitChar(15)] == "ff";
    ParseFormatUint(255, 16, 8);
    ParseIgnoresCase("FF", "ff", 16, 8);
  }

  /** Base 0 takes the base from the prefix: "0x1F" is 31. */
  lemma HexPrefixExample()
    ensures ParseUint("0x1F", 0, 64) == Some(31)
  {
    HexDigits();
    ParsePrefixed(31, "0x", 16, 64);
    ParseIgnoresCase("0x1F", "0x1f", 0, 64);
  }

  /** The sign comes before the prefix: "-0x10" is -16 at 8 bits. */
  lemma NegativeHexExample()
    ensures ParseInt("-0x10", 0, 8) == Some(-16)
  {
    HexDigits();
    ParsePrefixed(16, "0x", 16, 8);
    assert "-" + "0x" + "10" == "-0x10";
  }

  /** The hexadecimal digits FormatUint writes for 31 and 16. */
  lemma HexDigits()
    ensures FormatUint(31, 16) == "1f"
    ensures FormatUint(16, 16) == "10"
  {
    assert FormatUint(31, 16) == FormatUint(1, 16) + [DigitChar(15)];
    assert FormatUint(16, 16) == FormatUint(1, 16) + [DigitChar(0)];
  }

  /** With base 0, "08" is a malformed octal numeral, "0x" without digits is octal too and malformed, and "0" is 0. */
  lemma Base0Examples()
    ensures ParseUint("08", 0, 64) == None
    ensures ParseUint("0x", 0, 64) == None
    ensures ParseUint("0", 0, 64) == Some(0)
  {
    assert InferBase("08") == (8, "08"[1..]) && "08"[1..] == "8";
    assert !IsDigitIn("8"[0], 8);
    assert InferBase("0x") == (8, "0x"[1..]) && "0x"[1..] == "x";
    assert !IsDigitIn("x"[0], 8);
    ParseFormatUint(0, 0, 64);
    assert FormatUint(0, 10) == "0";
  }

  /** "-128" is the smallest int8 and "128" is one past the largest. */
  lemma HundredTwentyEight()
    ensures ParseInt("-128", 10, 8) == Some(-128)
    ensures ParseInt("128", 10, 8) == None
  {
    assert FormatUint(128, 10) == FormatUint(12, 10) + [DigitChar(8)];
    assert FormatUint(12, 10) == FormatUint(1, 10) + [DigitChar(2)];
    assert FormatUint(128, 10) == "128";
    ParseFormatInt(-128, 10, 8);
    ParseFormatInt(128, 10, 8);
    assert FormatInt(-128, 10) == "-128";
  }
}
