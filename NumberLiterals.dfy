/**
 * The number literal parser of MonadPrimusParserOpt.cs: an optional minus
 * sign, then the first of these readings that matches: octal ("0" and octal
 * digits, when enabled), binary ("0b" and binary digits, when enabled),
 * hexadecimal ("0x" and hex digits) and decimal digits. Any failure is
 * reported as "Does not match number literal".
 *
 * ReadNumber is a reference reading of the same literal, written directly
 * over the text; NumberLiteralReads proves that the parser agrees with it.
 */
module NumberLiterals {
  import opened Wrappers
  import opened ParserCore
  import opened Matchers
  import opened Numerals

  /** The optional radixes (NumberLiteralFlags.Binary and NumberLiteralFlags.Octal). */
  datatype NumberFlags = NumberFlags(binary: bool, octal: bool)

  /** What NumberLiteral() without arguments enables. */
  const BothRadixes := NumberFlags(true, true)

  const NumberError := "Does not match number literal"

  const OctalDigits := Pattern("[0-7]+", Plus(IsOctalDigit))
  const HexDigits := Pattern("[0-9a-fA-F]+", Plus(IsHexDigit))
  const BinaryDigits := Pattern("[01]+", Plus(IsBinaryDigit))
  const DecimalDigits := Pattern("[0-9]+", Plus(IsDigit))

  // ----- The parser -----

  /** A run of digits, read in a base. */
  function Digits(pat: Pattern, base: nat): Parser<int>
  {
    Select(Regex(pat), (x: string) => BaseValue(x, base) as int)
  }

  /** A radix prefix and then a run of digits read in a base. */
  function Prefixed(prefix: string, digits: Parser<int>): Parser<int>
  {
    SelectMany3(Str(prefix), (u: string) => digits, (u: string, a: int) => a)
  }

  /** Hexadecimal, else decimal: the alternatives every literal has. */
  function CommonLiteral(): Parser<int>
  {
    Choice(Prefixed("0x", Digits(HexDigits, 16)), Digits(DecimalDigits, 10))
  }

  /** Binary, when enabled, is prepended and so tried first. */
  function WithBinary(flags: NumberFlags): Parser<int>
  {
    if flags.binary then Choice(Prefixed("0b", Digits(BinaryDigits, 2)), CommonLiteral()) else CommonLiteral()
  }

  /** Octal, when enabled, is prepended last and so tried before all the others. */
  function Unsigned(flags: NumberFlags): Parser<int>
  {
    if flags.octal then Choice(Prefixed("0", Digits(OctalDigits, 8)), WithBinary(flags)) else WithBinary(flags)
  }

  function Signed(sign: string, b: int): int
  {
    if sign == "-" then -b else b
  }

  /** An optional minus sign, then the unsigned literal, whose failure is reported as the literal's. */
  function SignedLiteral(unsigned: Parser<int>): Parser<int>
  {
    SelectMany3(ParserCore.Option(Str("-"), ""), (a: string) => SelectError(unsigned, (m: string) => NumberError), Signed)
  }

  function NumberLiteral(flags: NumberFlags): Parser<int>
  {
    SignedLiteral(Unsigned(flags))
  }

  // ----- The reference reading -----

  /** How many characters a literal takes, and its value. */
  datatype Reading = Reading(length: nat, value: int)

  /** The run of digits of the class at the start of t, read in base; nothing for an empty run. */
  function ReadRun(t: string, digit: char -> bool, base: nat): (r: Option<Reading>)
    ensures r.Some? ==> 0 < r.value.length <= |t| && r.value.value >= 0
    ensures r.Some? ==> forall i :: 0 <= i < r.value.length ==> digit(t[i])
    ensures r.Some? && r.value.length < |t| ==> !digit(t[r.value.length])
    ensures r.None? <==> t == [] || !digit(t[0])
  {
    var n := RunLength(t, digit, |t|);
    if n == 0 then None else Some(Reading(n, BaseValue(t[..n], base)))
  }

  /** The prefix, then a run of digits read in base. */
  function ReadPrefixed(t: string, prefix: string, digit: char -> bool, base: nat): (r: Option<Reading>)
    ensures r.Some? ==> prefix <= t && |prefix| < r.value.length <= |t|
  {
    if prefix <= t then
      match ReadRun(t[|prefix|..], digit, base)
      case Some(rd) => Some(Reading(|prefix| + rd.length, rd.value))
      case None => None
    else None
  }

  /** The first reading that applies, in the order octal, binary, hexadecimal, decimal. */
  function ReadUnsigned(flags: NumberFlags, t: string): Option<Reading>
  {
    var octal := if flags.octal then ReadPrefixed(t, "0", IsOctalDigit, 8) else None;
    var binary := if flags.binary then ReadPrefixed(t, "0b", IsBinaryDigit, 2) else None;
    var hex := ReadPrefixed(t, "0x", IsHexDigit, 16);
    if octal.Some? then octal
    else if binary.Some? then binary
    else if hex.Some? then hex
    else ReadRun(t, IsDigit, 10)
  }

  /** A reading after a minus sign: one character more, and the value negated. */
  function Negated(r: Option<Reading>): Option<Reading>
  {
    match r
    case Some(rd) => Some(Reading(1 + rd.length, -rd.value))
    case None => None
  }

  /** An optional minus sign and an unsigned reading; the sign needs a literal after it. */
  function ReadNumber(flags: NumberFlags, t: string): Option<Reading>
  {
    if "-" <= t then Negated(ReadUnsigned(flags, t[1..])) else ReadUnsigned(flags, t)
  }

  /** What the parser yields at pos for a reading: the literal after it, or the literal's error. */
  function Outcome(c: Config, pos: nat, r: Option<Reading>): Result<int>
  {
    match r
    case Some(rd) => Ok(c, pos + rd.length, rd.value)
    case None => Err(NumberError)
  }

  // ----- The parser agrees with the reference reading -----

  /** The parser p at pos does what the reading r says: succeed with its length and value, or fail. */
  ghost predicate ReadsAt(p: Parser<int>, c: Config, pos: nat, r: Option<Reading>)
  {
    match r
    case Some(rd) => p(c, pos) == Ok(c, pos + rd.length, rd.value)
    case None => p(c, pos).Err?
  }

  /** A pattern whose matcher takes n characters at pos (none when n is 0), without a skip pattern. */
  lemma {:induction false} RegexTakes(pat: Pattern, c: Config, pos: nat, n: nat)
    requires c.skip.None? && pos <= |c.subject|
    requires pat.matcher(c.subject[pos..]) == if n == 0 then None else Some(n)
    ensures n <= |c.subject| - pos
    ensures n == 0 ==> Regex(pat)(c, pos).Err?
    ensures n > 0 ==> Regex(pat)(c, pos) == Ok(c, pos + n, c.subject[pos..pos + n])
  {
    RegexNoSkip(pat, "Does not match pattern " + pat.text, c, pos);
  }

  lemma {:induction false} DigitsReads(text: string, digit: char -> bool, base: nat, c: Config, pos: nat)
    requires c.skip.None? && pos <= |c.subject|
    ensures ReadsAt(Digits(Pattern(text, Plus(digit)), base), c, pos, ReadRun(c.subject[pos..], digit, base))
  {
    var t := c.subject[pos..];
    var n := RunLength(t, digit, |t|);
    PlusMatch(digit, t, n);
    DigitsOfRun(Pattern(text, Plus(digit)), digit, base, c, pos);
  }

  lemma {:induction false} DigitsOfRun(pat: Pattern, digit: char -> bool, base: nat, c: Config, pos: nat)
    requires c.skip.None? && pos <= |c.subject|
    requires var t := c.subject[pos..];
             var n := RunLength(t, digit, |t|);
             pat.matcher(t) == if n == 0 then None else Some(n)
    ensures ReadsAt(Digits(pat, base), c, pos, ReadRun(c.subject[pos..], digit, base))
  {
    var t := c.subject[pos..];
    var n := RunLength(t, digit, |t|);
    RegexTakes(pat, c, pos, n);
    DigitsOfRegex(pat, base, c, pos);
    if n == 0 {
      assert ReadRun(t, digit, base) == None;
    } else {
      SuffixPrefix(c.subject, pos, n);
      assert ReadRun(t, digit, base) == Some(Reading(n, BaseValue(t[..n], base)));
    }
  }

  /** The first n characters from pos. */
  lemma SuffixPrefix(s: string, pos: nat, n: nat)
    requires pos + n <= |s|
    ensures s[pos..pos + n] == s[pos..][..n]
  {
  }

  lemma {:induction false} DigitsOfRegex(pat: Pattern, base: nat, c: Config, pos: nat)
    ensures Regex(pat)(c, pos).Err? ==> Digits(pat, base)(c, pos).Err?
    ensures Regex(pat)(c, pos).Ok? ==>
              var r := Regex(pat)(c, pos);
              Digits(pat, base)(c, pos) == Ok(r.config, r.pos, BaseValue(r.value, base) as int)
  {
  }

  lemma {:induction false} PrefixedPresent(prefix: string, p: Parser<int>, digit: char -> bool, base: nat, c: Config, pos: nat)
    requires c.skip.None? && pos <= |c.subject| && prefix <= c.subject[pos..]
    requires ReadsAt(p, c, pos + |prefix|, ReadRun(c.subject[pos + |prefix|..], digit, base))
    ensures ReadsAt(Prefixed(prefix, p), c, pos, ReadPrefixed(c.subject[pos..], prefix, digit, base))
  {
    var s, t := c.subject, c.subject[pos..];
    assert s[pos..pos + |prefix|] == prefix;
    StrPresent(prefix, c, pos, pos);
    PrefixedAfterPrefix(prefix, p, c, pos);
    assert t[|prefix|..] == s[pos + |prefix|..];
  }

  lemma {:induction false} PrefixedAbsent(prefix: string, p: Parser<int>, digit: char -> bool, base: nat, c: Config, pos: nat)
    requires c.skip.None? && pos <= |c.subject| && !(prefix <= c.subject[pos..])
    ensures ReadsAt(Prefixed(prefix, p), c, pos, ReadPrefixed(c.subject[pos..], prefix, digit, base))
  {
    StrAbsent(prefix, c, pos, pos);
    PrefixedWithoutPrefix(prefix, p, c, pos);
  }

  lemma {:induction false} PrefixedAfterPrefix(prefix: string, p: Parser<int>, c: Config, pos: nat)
    requires Str(prefix)(c, pos) == Ok(c, pos + |prefix|, prefix)
    ensures Prefixed(prefix, p)(c, pos).Err? <==> p(c, pos + |prefix|).Err?
    ensures p(c, pos + |prefix|).Ok? ==> Prefixed(prefix, p)(c, pos) == p(c, pos + |prefix|)
  {
    SelectMany3Spec(Str(prefix), (u: string) => p, (u: string, a: int) => a, c, pos);
  }

  lemma {:induction false} PrefixedWithoutPrefix(prefix: string, p: Parser<int>, c: Config, pos: nat)
    requires Str(prefix)(c, pos).Err?
    ensures Prefixed(prefix, p)(c, pos).Err?
  {
    SelectMany3Spec(Str(prefix), (u: string) => p, (u: string, a: int) => a, c, pos);
  }

  lemma {:induction false} ChoiceReads(p: Parser<int>, q: Parser<int>, c: Config, pos: nat, r1: Option<Reading>, r2: Option<Reading>)
    requires ReadsAt(p, c, pos, r1) && ReadsAt(q, c, pos, r2)
    ensures ReadsAt(Choice(p, q), c, pos, if r1.Some? then r1 else r2)
  {
    ChoiceSpec(p, q, c, pos);
  }

  /** One radix alternative: its prefix, then its digits. */
  lemma {:induction false} RadixReads(prefix: string, text: string, digit: char -> bool, base: nat, c: Config, pos: nat)
    requires c.skip.None? && pos <= |c.subject|
    ensures ReadsAt(Prefixed(prefix, Digits(Pattern(text, Plus(digit)), base)), c, pos,
                    ReadPrefixed(c.subject[pos..], prefix, digit, base))
  {
    if prefix <= c.subject[pos..] {
      var u := c.subject[pos + |prefix|..];
      PlusMatch(digit, u, RunLength(u, digit, |u|));
    }
    RadixOfPattern(prefix, Pattern(text, Plus(digit)), digit, base, c, pos);
  }

  lemma {:induction false} RadixOfPattern(prefix: string, pat: Pattern, digit: char -> bool, base: nat, c: Config, pos: nat)
    requires c.skip.None? && pos <= |c.subject|
    requires prefix <= c.subject[pos..] ==>
               var u := c.subject[pos + |prefix|..];
               var n := RunLength(u, digit, |u|);
               pat.matcher(u) == if n == 0 then None else Some(n)
    ensures ReadsAt(Prefixed(prefix, Digits(pat, base)), c, pos, ReadPrefixed(c.subject[pos..], prefix, digit, base))
  {
    if prefix <= c.subject[pos..] {
      DigitsOfRun(pat, digit, base, c, pos + |prefix|);
      PrefixedPresent(prefix, Digits(pat, base), digit, base, c, pos);
    } else {
      PrefixedAbsent(prefix, Digits(pat, base), digit, base, c, pos);
    }
  }

  lemma {:induction false} CommonReads(c: Config, pos: nat)
    requires c.skip.None? && pos <= |c.subject|
    ensures var hex := ReadPrefixed(c.subject[pos..], "0x", IsHexDigit, 16);
            ReadsAt(CommonLiteral(), c, pos, if hex.Some? then hex else ReadRun(c.subject[pos..], IsDigit, 10))
  {
    var t := c.subject[pos..];
    RadixReads("0x", HexDigits.text, IsHexDigit, 16, c, pos);
    DigitsReads(DecimalDigits.text, IsDigit, 10, c, pos);
    ChoiceReads(Prefixed("0x", Digits(HexDigits, 16)), Digits(DecimalDigits, 10), c, pos,
                ReadPrefixed(t, "0x", IsHexDigit, 16), ReadRun(t, IsDigit, 10));
  }

  lemma {:induction false} WithBinaryReads(flags: NumberFlags, c: Config, pos: nat)
    requires c.skip.None? && pos <= |c.subject|
    ensures var t := c.subject[pos..];
            var binary := if flags.binary then ReadPrefixed(t, "0b", IsBinaryDigit, 2) else None;
            var hex := ReadPrefixed(t, "0x", IsHexDigit, 16);
            ReadsAt(WithBinary(flags), c, pos,
                    if binary.Some? then binary else if hex.Some? then hex else ReadRun(t, IsDigit, 10))
  {
    var t := c.subject[pos..];
    CommonReads(c, pos);
    if flags.binary {
      var hex := ReadPrefixed(t, "0x", IsHexDigit, 16);
      RadixReads("0b", BinaryDigits.text, IsBinaryDigit, 2, c, pos);
      ChoiceReads(Prefixed("0b", Digits(BinaryDigits, 2)), CommonLiteral(), c, pos,
                  ReadPrefixed(t, "0b", IsBinaryDigit, 2), if hex.Some? then hex else ReadRun(t, IsDigit, 10));
    }
  }

  lemma {:induction false} UnsignedReads(flags: NumberFlags, c: Config, pos: nat)
    requires c.skip.None? && pos <= |c.subject|
    ensures ReadsAt(Unsigned(flags), c, pos, ReadUnsigned(flags, c.subject[pos..]))
  {
    var t := c.subject[pos..];
    WithBinaryReads(flags, c, pos);
    if flags.octal {
      var binary := if flags.binary then ReadPrefixed(t, "0b", IsBinaryDigit, 2) else None;
      var hex := ReadPrefixed(t, "0x", IsHexDigit, 16);
      RadixReads("0", OctalDigits.text, IsOctalDigit, 8, c, pos);
      ChoiceReads(Prefixed("0", Digits(OctalDigits, 8)), WithBinary(flags), c, pos,
                  ReadPrefixed(t, "0", IsOctalDigit, 8),
                  if binary.Some? then binary else if hex.Some? then hex else ReadRun(t, IsDigit, 10));
    }
  }

  /**
   * Without a skip pattern, the number literal parser succeeds exactly when
   * the reference reading does, with its length and value, and otherwise
   * fails with "Does not match number literal".
   */
  lemma {:induction false} NumberLiteralReads(flags: NumberFlags, c: Config, pos: nat)
    requires c.skip.None? && pos <= |c.subject|
    ensures NumberLiteral(flags)(c, pos) == Outcome(c, pos, ReadNumber(flags, c.subject[pos..]))
  {
    if "-" <= c.subject[pos..] {
      NumberLiteralNegative(flags, c, pos);
    } else {
      NumberLiteralNonNegative(flags, c, pos);
    }
  }

  lemma {:induction false} NumberLiteralNegative(flags: NumberFlags, c: Config, pos: nat)
    requires c.skip.None? && pos < |c.subject| && c.subject[pos] == '-'
    ensures NumberLiteral(flags)(c, pos) == Outcome(c, pos, ReadNumber(flags, c.subject[pos..]))
  {
    var r := ReadUnsigned(flags, c.subject[pos + 1..]);
    UnsignedReads(flags, c, pos + 1);
    NegativeReads(Unsigned(flags), r, c, pos);
    ReadNegative(flags, c.subject, pos);
    NumberLiteralIs(flags, c, pos, SignedLiteral(Unsigned(flags))(c, pos));
  }

  lemma {:induction false} NumberLiteralNonNegative(flags: NumberFlags, c: Config, pos: nat)
    requires c.skip.None? && pos <= |c.subject| && !("-" <= c.subject[pos..])
    ensures NumberLiteral(flags)(c, pos) == Outcome(c, pos, ReadNumber(flags, c.subject[pos..]))
  {
    var r := ReadUnsigned(flags, c.subject[pos..]);
    UnsignedReads(flags, c, pos);
    NonNegativeReads(Unsigned(flags), r, c, pos);
    NumberLiteralIs(flags, c, pos, SignedLiteral(Unsigned(flags))(c, pos));
  }

  lemma {:induction false} ReadNegative(flags: NumberFlags, s: string, pos: nat)
    requires pos < |s| && s[pos] == '-'
    ensures ReadNumber(flags, s[pos..]) == Negated(ReadUnsigned(flags, s[pos + 1..]))
  {
    assert s[pos..][1..] == s[pos + 1..];
  }

  lemma {:induction false} NumberLiteralIs(flags: NumberFlags, c: Config, pos: nat, r: Result<int>)
    requires SignedLiteral(Unsigned(flags))(c, pos) == r
    ensures NumberLiteral(flags)(c, pos) == r
  {
  }

  lemma {:induction false} NegativeReads(unsigned: Parser<int>, r: Option<Reading>, c: Config, pos: nat)
    requires c.skip.None? && pos < |c.subject| && c.subject[pos] == '-'
    requires ReadsAt(unsigned, c, pos + 1, r)
    ensures SignedLiteral(unsigned)(c, pos) == Outcome(c, pos, Negated(r))
  {
    assert c.subject[pos..pos + 1] == "-";
    StrPresent("-", c, pos, pos);
    OptionSpec(Str("-"), "", c, pos);
    SignThen(unsigned, c, pos, pos + 1, "-");
  }

  lemma {:induction false} NonNegativeReads(unsigned: Parser<int>, r: Option<Reading>, c: Config, pos: nat)
    requires c.skip.None? && pos <= |c.subject| && !("-" <= c.subject[pos..])
    requires ReadsAt(unsigned, c, pos, r)
    ensures SignedLiteral(unsigned)(c, pos) == Outcome(c, pos, r)
  {
    StrAbsent("-", c, pos, pos);
    OptionSpec(Str("-"), "", c, pos);
    SignThen(unsigned, c, pos, pos, "");
  }

  /** After the optional sign, the unsigned literal decides the outcome. */
  lemma {:induction false} SignThen(unsigned: Parser<int>, c: Config, pos: nat, at: nat, sign: string)
    requires ParserCore.Option(Str("-"), "")(c, pos) == Ok(c, at, sign)
    ensures unsigned(c, at).Err? ==> SignedLiteral(unsigned)(c, pos) == Err(NumberError)
    ensures unsigned(c, at).Ok? ==>
              SignedLiteral(unsigned)(c, pos) ==
              Ok(unsigned(c, at).config, unsigned(c, at).pos, Signed(sign, unsigned(c, at).value))
  {
    var m := (a: string) => SelectError(unsigned, (e: string) => NumberError);
    SelectMany3Spec(ParserCore.Option(Str("-"), ""), m, Signed, c, pos);
    SelectErrorSpec(unsigned, (e: string) => NumberError, c, at);
  }

  // ----- Properties of the reading -----

  /** A reading never takes more than the text, and a negative value needs a minus sign. */
  lemma {:induction false} ReadNumberBounds(flags: NumberFlags, t: string)
    ensures var r := ReadNumber(flags, t);
            r.Some? ==> 0 < r.value.length <= |t| && (r.value.value < 0 ==> "-" <= t)
  {
  }

  /** The octal flag matters only for text that starts with "0" or "-0". */
  lemma {:induction false} OctalNeedsLeadingZero(binary: bool, t: string)
    requires !("0" <= t) && !("-0" <= t)
    ensures ReadNumber(NumberFlags(binary, true), t) == ReadNumber(NumberFlags(binary, false), t)
  {
  }

  /** The binary flag matters only for text that starts with "0b". */
  lemma {:induction false} BinaryNeedsPrefix(octal: bool, t: string)
    requires !("0b" <= t)
    ensures ReadUnsigned(NumberFlags(true, octal), t) == ReadUnsigned(NumberFlags(false, octal), t)
  {
  }

  /** A run of decimal digits that does not start with "0" is read in base ten, whatever the flags. */
  lemma {:induction false} DecimalWithoutLeadingZero(flags: NumberFlags, t: string, n: nat)
    requires 0 < n <= |t| && t[0] != '0'
    requires forall i :: 0 <= i < n ==> IsDigit(t[i])
    requires n == |t| || !IsDigit(t[n])
    ensures ReadNumber(flags, t) == Some(Reading(n, BaseValue(t[..n], 10)))
  {
    RunLengthExact(t, IsDigit, |t|, n);
    assert !("0" <= t) && !("0b" <= t) && !("0x" <= t) && !("-" <= t);
  }

  // ----- The readings the library's tests expect -----

  lemma {:induction false} OctalReadings()
    ensures ReadNumber(BothRadixes, "0377") == Some(Reading(4, 255))
    ensures ReadNumber(NumberFlags(true, false), "0377") == Some(Reading(4, 377))
    ensures ReadNumber(BothRadixes, "-0377") == Some(Reading(5, -255))
  {
    OctalPieces();
    assert "-0377"[1..] == "0377";
  }

  /** The digit runs and values that the readings of "0377" are made of. */
  lemma OctalPieces()
    ensures BaseValue("377", 8) == 255 && BaseValue("0377", 10) == 377
    ensures RunLength("377", IsOctalDigit, 3) == 3 && RunLength("0377", IsDigit, 4) == 4
    ensures "0377"[1..] == "377" && "0377"[..4] == "0377" && "377"[..3] == "377"
  {
    assert BaseValue("377", 8) == 255 by {
      assert "377"[..2] == "37" && "37"[..1] == "3" && "3"[..0] == [];
    }
    assert BaseValue("0377", 10) == 377 by {
      assert "0377"[..3] == "037" && "037"[..2] == "03" && "03"[..1] == "0" && "0"[..0] == [];
    }
    RunLengthExact("377", IsOctalDigit, 3, 3);
    RunLengthExact("0377", IsDigit, 4, 4);
  }

  lemma {:induction false} ZeroReadings()
    ensures ReadNumber(BothRadixes, "0") == Some(Reading(1, 0))
    ensures ReadNumber(BothRadixes, "08") == Some(Reading(2, 8))
  {
    assert BaseValue("0", 10) == 0 by { assert "0"[..0] == []; }
    assert BaseValue("08", 10) == 8 by { assert "08"[..1] == "0" && "0"[..0] == []; }
    RunLengthExact("0", IsDigit, 1, 1);
    RunLengthExact("08", IsDigit, 2, 2);
    assert "0"[..1] == "0" && "08"[..2] == "08";
    assert "0"[1..] == [] && "08"[1..] == "8";
  }

  /** Without the binary flag "0b1111" stops after its leading zero. */
  lemma {:induction false} BinaryOffReading()
    ensures ReadNumber(NumberFlags(false, true), "0b1111") == Some(Reading(1, 0))
    ensures ReadNumber(BothRadixes, "0b1111") == Some(Reading(6, 15))
  {
    BinaryPieces();
  }

  /** The digit runs and values that the readings of "0b1111" are made of. */
  lemma BinaryPieces()
    ensures "0b1111"[1..] == "b1111" && "0b1111"[2..] == "1111" && "0b1111"[..1] == "0"
    ensures RunLength("0b1111", IsDigit, 6) == 1 && RunLength("1111", IsBinaryDigit, 4) == 4
    ensures BaseValue("0", 10) == 0 && BaseValue("1111", 2) == 15 && "1111"[..4] == "1111"
  {
    var t := "0b1111";
    assert t[1..] == "b1111" && t[2..] == "1111";
    RunLengthExact(t, IsDigit, 6, 1);
    assert BaseValue("0", 10) == 0 by { assert "0"[..0] == []; }
    RunLengthExact("1111", IsBinaryDigit, 4, 4);
    assert BaseValue("1111", 2) == 15 by {
      assert "1111"[..3] == "111" && "111"[..2] == "11" && "11"[..1] == "1" && "1"[..0] == [];
    }
  }

  lemma {:induction false} HexReading()
    ensures ReadNumber(BothRadixes, "0x765") == Some(Reading(5, 0x765))
    ensures ReadNumber(BothRadixes, "-0x765") == Some(Reading(6, -0x765))
  {
    var t := "0x765";
    assert t[1..] == "x765" && t[2..] == "765" && "-0x765"[1..] == t;
    assert ReadPrefixed(t, "0", IsOctalDigit, 8) == None by { assert !IsOctalDigit("x765"[0]); }
    assert !("0b" <= t) by { assert t[1] != 'b'; }
    RunLengthExact("765", IsHexDigit, 3, 3);
    assert "765"[..3] == "765";
    assert BaseValue("765", 16) == 0x765 by {
      assert "765"[..2] == "76" && "76"[..1] == "7" && "7"[..0] == [];
    }
    assert ReadRun("765", IsHexDigit, 16) == Some(Reading(3, 0x765));
    assert "0x" <= t by { assert t[..2] == "0x"; }
    assert ReadPrefixed(t, "0x", IsHexDigit, 16) == Some(Reading(5, 0x765));
    assert !("-" <= t) by { assert t[0] != '-'; }
    assert ReadUnsigned(BothRadixes, t) == Some(Reading(5, 0x765));
  }

  /** A lone minus sign is not a literal. */
  lemma {:induction false} LoneMinus()
    ensures ReadNumber(BothRadixes, "-") == None
  {
    assert "-"[1..] == [];
  }

  /** The tests' failing case through the parser: a lone minus sign gives the literal's message. */
  lemma {:induction false} LoneMinusFails()
    ensures NumberLiteral(BothRadixes)(Config("-", None), 0) == Err(NumberError)
  {
    NumberLiteralReads(BothRadixes, Config("-", None), 0);
    assert "-"[0..] == "-";
    LoneMinus();
  }

  /** The tests' octal case through the parser. */
  lemma {:induction false} OctalParsed()
    ensures NumberLiteral(BothRadixes)(Config("0377", None), 0) == Ok(Config("0377", None), 4, 255)
  {
    NumberLiteralReads(BothRadixes, Config("0377", None), 0);
    OctalReadings();
    assert "0377"[0..] == "0377";
  }
}
