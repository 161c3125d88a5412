/**
 * Concrete grammars from the library's own usage: the digit-sum repetition,
 * the skip-aware sequence of literals, the balanced-parenthesis grammar
 * built with Letrec1, and the input on which DelimitRight as written goes
 * wrong.
 */
module ParserExamples {
  import opened Wrappers
  import opened ParserCore
  import opened Matchers
  import opened Numerals
  import opened Repetition
  import opened Letrec
  import opened NumberLiterals

  const DigitPattern: Pattern := Pattern("[0-9]", One(IsDigit))

  /** One decimal digit, as its value. */
  function Digit(): Parser<int>
  {
    Select(Regex(DigitPattern), DecimalValue)
  }

  function DecimalValue(x: string): int
  {
    BaseValue(x, 10)
  }

  lemma {:induction false} DigitMatcherNonEmpty(s: string)
    ensures DigitPattern.matcher(s) != Some(0)
  {
    RepeatNonEmpty("", IsDigit, 1, Some(1), s);
  }

  lemma {:induction false} DigitPatternAdvances()
    ensures Advancing(Regex(DigitPattern))
  {
    forall s ensures DigitPattern.matcher(s) != Some(0) {
      DigitMatcherNonEmpty(s);
    }
    RegexKeeps(DigitPattern, "Does not match pattern " + DigitPattern.text);
  }

  lemma {:induction false} DigitAdvances()
    ensures Advancing(Digit())
  {
    DigitPatternAdvances();
    SelectAdvances(Regex(DigitPattern), DecimalValue);
  }

  function Add(a: int, b: int): int { a + b }

  function AddAround(a: int, o: string, b: int): int { a + b }

  function DigitSum(): Parser<int>
  {
    DigitAdvances();
    OneOrMore(Digit(), Add)
  }

  /** The digit pattern matches one character exactly when the text starts with a digit. */
  lemma {:induction false} DigitMatch(t: string)
    ensures DigitPattern.matcher(t) == if 0 < |t| && IsDigit(t[0]) then Some(1) else None
  {
  }

  /** The message Digit fails with. */
  const DigitError: string := "Does not match pattern " + DigitPattern.text

  /** For any one-character pattern: the digit it reads, as its value. */
  lemma {:induction false} DecimalOfOneChar(pat: Pattern, c: Config, pos: nat)
    requires c.skip.None? && pos < |c.subject| && pat.matcher(c.subject[pos..]) == Some(1)
    ensures Select(Regex(pat), DecimalValue)(c, pos) == Ok(c, pos + 1, DigitValue(c.subject[pos]))
  {
    RegexNoSkip(pat, "Does not match pattern " + pat.text, c, pos);
    SelectSpec(Regex(pat), DecimalValue, c, pos);
    assert c.subject[pos..pos + 1] == [c.subject[pos]];
    BaseValueSingle(c.subject[pos], 10);
  }

  /** For any pattern that does not match here: the pattern's message. */
  lemma {:induction false} DecimalOfNoMatch(pat: Pattern, c: Config, pos: nat)
    requires c.skip.None? && pos <= |c.subject| && pat.matcher(c.subject[pos..]).None?
    ensures Select(Regex(pat), DecimalValue)(c, pos) == Err("Does not match pattern " + pat.text)
  {
    RegexNoSkip(pat, "Does not match pattern " + pat.text, c, pos);
    SelectSpec(Regex(pat), DecimalValue, c, pos);
  }

  /** Without a skip pattern, Digit reads exactly one digit character as its value. */
  lemma {:induction false} DigitOk(c: Config, pos: nat)
    requires c.skip.None? && pos < |c.subject| && IsDigit(c.subject[pos])
    ensures Digit()(c, pos) == Ok(c, pos + 1, DigitValue(c.subject[pos]))
  {
    DigitMatch(c.subject[pos..]);
    DecimalOfOneChar(DigitPattern, c, pos);
  }

  /** At the end of the subject or before a non-digit, Digit fails with its message. */
  lemma {:induction false} DigitErr(c: Config, pos: nat)
    requires c.skip.None? && pos <= |c.subject| && !(pos < |c.subject| && IsDigit(c.subject[pos]))
    ensures Digit()(c, pos) == Err(DigitError)
  {
    DigitMatch(c.subject[pos..]);
    DecimalOfNoMatch(DigitPattern, c, pos);
  }

  /** The digits of s from position i up to e, added up. */
  function DigitTotal(s: string, i: nat, e: nat): int
    requires i <= e <= |s|
    decreases e - i
  {
    if i == e then 0 else DigitValue(s[i]) + DigitTotal(s, i + 1, e)
  }

  /** s holds a maximal run of digits from i to e: digits up to e, and none at e. */
  predicate DigitRun(s: string, i: nat, e: nat)
  {
    i <= e <= |s| && (forall k :: i <= k < e ==> IsDigit(s[k])) && (e == |s| || !IsDigit(s[e]))
  }

  /**
   * For any element parser that reads one digit at each position of a run
   * and fails at its end, and a delimiter that matches empty everywhere on
   * the run: the chain reaches the end of the run and adds the digits up.
   */
  lemma {:induction false} ChainOfDigitReader(p: Parser<int>, d: Parser<string>, c: Config, pos: nat, e: nat, acc: int)
    requires Repeatable(p, d)
    requires pos <= e <= |c.subject|
    requires forall k :: pos <= k <= e ==> d(c, k) == Ok(c, k, "")
    requires forall k :: pos <= k < e ==> p(c, k) == Ok(c, k + 1, DigitValue(c.subject[k]))
    requires p(c, e).Err?
    ensures ChainEnd(p, d, c, pos) == e
    ensures FoldLeft(Skipping(Add), acc, Chain(p, d, c, pos)) == acc + DigitTotal(c.subject, pos, e)
    decreases e - pos
  {
    ChainStep(p, d, c, pos);
    if pos < e {
      var v := DigitValue(c.subject[pos]);
      ChainOfDigitReader(p, d, c, pos + 1, e, acc + v);
      var links := Chain(p, d, c, pos + 1);
      assert Chain(p, d, c, pos) == [("", v)] + links;
      assert ([("", v)] + links)[1..] == links;
      assert Skipping(Add)(acc, "", v) == Add(acc, v);
    }
  }

  /** Without a skip pattern the empty literal matches everywhere, consuming nothing. */
  lemma {:induction false} EmptyStrEverywhere(c: Config, pos: nat, e: nat)
    requires c.skip.None? && e <= |c.subject|
    ensures forall k :: pos <= k <= e ==> Str("")(c, k) == Ok(c, k, "")
  {
    forall k | pos <= k <= e ensures Str("")(c, k) == Ok(c, k, "") {
      EmptyStrMatches(c, k);
    }
  }

  /** Digit reads one digit at each position of a run and fails at its end. */
  lemma {:induction false} DigitReadsRun(c: Config, pos: nat, e: nat)
    requires c.skip.None? && DigitRun(c.subject, pos, e)
    ensures forall k :: pos <= k < e ==> Digit()(c, k) == Ok(c, k + 1, DigitValue(c.subject[k]))
    ensures Digit()(c, e).Err?
  {
    forall k | pos <= k < e ensures Digit()(c, k) == Ok(c, k + 1, DigitValue(c.subject[k])) {
      DigitOk(c, k);
    }
    DigitErr(c, e);
  }

  /** The whole repetition over a run, for any such element parser and delimiter. */
  lemma {:induction false} DelimitOfDigitReader(p: Parser<int>, d: Parser<string>, c: Config, pos: nat, e: nat)
    requires Repeatable(p, d)
    requires pos < e <= |c.subject|
    requires forall k :: pos <= k <= e ==> d(c, k) == Ok(c, k, "")
    requires forall k :: pos <= k < e ==> p(c, k) == Ok(c, k + 1, DigitValue(c.subject[k]))
    requires p(c, e).Err?
    ensures Delimit(p, d, Skipping(Add))(c, pos) == Ok(c, e, DigitTotal(c.subject, pos, e))
  {
    DigitChainAfterFirst(p, d, c, pos, e);
    DelimitIsFoldLeft(p, d, Skipping(Add), c, pos);
  }

  /** The chain after the first digit of the run ends with the run and adds up the rest of it. */
  lemma {:induction false} DigitChainAfterFirst(p: Parser<int>, d: Parser<string>, c: Config, pos: nat, e: nat)
    requires Repeatable(p, d)
    requires pos < e <= |c.subject|
    requires forall k :: pos <= k <= e ==> d(c, k) == Ok(c, k, "")
    requires forall k :: pos <= k < e ==> p(c, k) == Ok(c, k + 1, DigitValue(c.subject[k]))
    requires p(c, e).Err?
    ensures ChainEnd(p, d, c, pos + 1) == e
    ensures FoldLeft(Skipping(Add), DigitValue(c.subject[pos]), Chain(p, d, c, pos + 1)) == DigitTotal(c.subject, pos, e)
  {
    ChainOfDigitReader(p, d, c, pos + 1, e, DigitValue(c.subject[pos]));
  }

  /** DigitSum reads the whole run of digits that starts at pos and yields their sum. */
  lemma {:induction false} DigitSumOfRun(c: Config, pos: nat, e: nat)
    requires c.skip.None? && DigitRun(c.subject, pos, e) && pos < e
    ensures DigitSum()(c, pos) == Ok(c, e, DigitTotal(c.subject, pos, e))
  {
    DigitAdvances();
    StrLiteralKeeps("");
    AdvancingRepeatable(Digit(), Str(""));
    DigitDelimitOfRun(c, pos, e);
  }

  lemma {:induction false} DigitDelimitOfRun(c: Config, pos: nat, e: nat)
    requires Repeatable(Digit(), Str(""))
    requires c.skip.None? && DigitRun(c.subject, pos, e) && pos < e
    ensures Delimit(Digit(), Str(""), Skipping(Add))(c, pos) == Ok(c, e, DigitTotal(c.subject, pos, e))
  {
    DigitReadsRun(c, pos, e);
    EmptyStrEverywhere(c, pos, e);
    DelimitOfDigitReader(Digit(), Str(""), c, pos, e);
  }

  /** The digits of "765" add up to 18, consuming the whole subject. */
  lemma {:induction false} DigitSumOf765(c: Config)
    requires c == Config("765", None)
    ensures DigitSum()(c, 0) == Ok(c, 3, 18)
  {
    RunOf765(c.subject);
    DigitSumOfRun(c, 0, 3);
    TotalOf765(c.subject);
  }

  lemma {:induction false} RunOf765(s: string)
    requires s == "765"
    ensures DigitRun(s, 0, 3)
  {
  }

  lemma {:induction false} TotalOf765(s: string)
    requires s == "765"
    ensures DigitTotal(s, 0, 3) == 18
  {
    assert DigitTotal(s, 2, 3) == 5;
    assert DigitTotal(s, 1, 3) == 11;
  }

  /** On an empty subject the repetition fails with the element's message; ZeroOrMore yields its default. */
  lemma {:induction false} DigitSumOfEmpty()
    ensures DigitSum()(Config("", None), 0) == Err(DigitError)
    ensures (DigitAdvances(); ZeroOrMore(Digit(), Add, 876))(Config("", None), 0) == Ok(Config("", None), 0, 876)
  {
    DigitAdvances();
    DigitErr(Config("", None), 0);
    OneOrMoreNeedsOne(Digit(), Add, Config("", None), 0);
    ZeroOrMoreSpec(Digit(), Add, 876, Config("", None), 0);
  }

  predicate IsBlank(ch: char) { ch == ' ' }

  /** The skip pattern " +". */
  const Blanks: Matcher := Plus(IsBlank)

  /** Skipping blanks from pos stops after the n blanks found there. */
  lemma {:induction false} BlanksSkipped(s: string, pos: nat, n: nat)
    requires pos + n <= |s|
    requires forall i :: pos <= i < pos + n ==> s[i] == ' '
    requires pos + n == |s| || s[pos + n] != ' '
    ensures SkipFrom(s, pos, Some(Blanks)) == pos + n
  {
    var t := s[pos..];
    forall i | 0 <= i < n ensures IsBlank(t[i]) {
      assert t[i] == s[pos + i];
    }
    if pos + n < |s| {
      assert t[n] == s[pos + n];
    }
    PlusMatch(IsBlank, t, n);
  }

  /** Three string parsers in sequence, their values joined. */
  function Concat3(p: Parser<string>, q: Parser<string>, r: Parser<string>): Parser<string>
  {
    SelectMany(p, (x: string) => SelectMany(q, (y: string) => Select(r, (z: string) => x + y + z)))
  }

  /** The sequence succeeds when all three do in turn, and fails with the first failure. */
  lemma {:induction false} Concat3Spec(p: Parser<string>, q: Parser<string>, r: Parser<string>, c: Config, pos: nat)
    ensures p(c, pos).Err? ==> Concat3(p, q, r)(c, pos) == Err(p(c, pos).message)
    ensures p(c, pos).Ok? ==>
              var r1 := p(c, pos);
              var r2 := q(r1.config, r1.pos);
              (r2.Err? ==> Concat3(p, q, r)(c, pos) == Err(r2.message)) &&
              (r2.Ok? ==>
                 var r3 := r(r2.config, r2.pos);
                 (r3.Err? ==> Concat3(p, q, r)(c, pos) == Err(r3.message)) &&
                 (r3.Ok? ==> Concat3(p, q, r)(c, pos) == Ok(r3.config, r3.pos, r1.value + r2.value + r3.value)))
  {
  }

  function Seven65(): Parser<string>
  {
    Concat3(Str("7"), Str("6"), Str("5"))
  }

  /**
   * Whatever the skip pattern, the literals are read where it stops; with
   * the blank pattern, BlanksSkipped gives the three stops on "7  6  5".
   */
  lemma {:induction false} Seven65AfterSkips(c: Config)
    requires c.subject == "7  6  5"
    requires SkipFrom(c.subject, 0, c.skip) == 0
    requires SkipFrom(c.subject, 1, c.skip) == 3
    requires SkipFrom(c.subject, 4, c.skip) == 6
    ensures Seven65()(c, 0) == Ok(c, 7, "765")
  {
    Seven65Shape(c.subject);
    StrPresent("7", c, 0, 0);
    StrPresent("6", c, 1, 3);
    StrPresent("5", c, 4, 6);
    Concat3Spec(Str("7"), Str("6"), Str("5"), c, 0);
  }

  lemma Seven65Shape(s: string)
    requires s == "7  6  5"
    ensures |"7"| == 1 && |"6"| == 1 && |"5"| == 1
    ensures s[0..0 + |"7"|] == "7" && s[3..3 + |"6"|] == "6" && s[6..6 + |"5"|] == "5"
    ensures "7" + "6" + "5" == "765"
  {
  }

  // ----- A number literal under a skip pattern -----

  /**
   * The number literal skips before the sign and again before the digits:
   * where the skip pattern stops at the sign and then at the digit of
   * "- 5", the literal is read as -5.
   */
  lemma {:induction false} NumberAfterSkips(c: Config)
    requires c.subject == "- 5"
    requires SkipFrom(c.subject, 0, c.skip) == 0
    requires SkipFrom(c.subject, 1, c.skip) == 2
    ensures NumberLiteral(BothRadixes)(c, 0) == Ok(c, 3, -5)
  {
    MinusSignRead(c);
    UnsignedReadsFive(c);
    NegatedRead(Unsigned(BothRadixes), c, 0, 1, 3, 5);
  }

  lemma {:induction false} MinusSignRead(c: Config)
    requires c.subject == "- 5"
    requires SkipFrom(c.subject, 0, c.skip) == 0
    ensures ParserCore.Option(Str("-"), "")(c, 0) == Ok(c, 1, "-")
  {
    MinusFiveShape(c.subject);
    StrPresent("-", c, 0, 0);
    OptionSpec(Str("-"), "", c, 0);
  }

  lemma MinusFiveShape(s: string)
    requires s == "- 5"
    ensures |s| == 3 && s[0..1] == "-" && s[2..3] != "0"
  {
    assert s[2..3][0] == '5';
  }

  /** A minus sign read, then an unsigned value: the literal is the negated value. */
  lemma {:induction false} NegatedRead(unsigned: Parser<int>, c: Config, pos: nat, signEnd: nat, end: nat, v: int)
    requires ParserCore.Option(Str("-"), "")(c, pos) == Ok(c, signEnd, "-")
    requires unsigned(c, signEnd) == Ok(c, end, v)
    ensures SignedLiteral(unsigned)(c, pos) == Ok(c, end, -v)
  {
    SelectErrorSpec(unsigned, (m: string) => NumberError, c, signEnd);
    SelectMany3Spec(ParserCore.Option(Str("-"), ""), (a: string) => SelectError(unsigned, (m: string) => NumberError), Signed, c, pos);
  }

  /** With the blank pattern " +", the number literal reads "- 5" as -5. */
  lemma {:induction false} NumberSkipsBlanks(c: Config)
    requires c.skip == Some(Blanks) && c.subject == "- 5"
    ensures NumberLiteral(BothRadixes)(c, 0) == Ok(c, 3, -5)
  {
    BlankStopsOfMinusFive(c.subject);
    NumberAfterSkips(c);
  }

  /** After the sign of "- 5", every prefixed reading fails and the decimal one reads 5. */
  lemma {:induction false} UnsignedReadsFive(c: Config)
    requires c.subject == "- 5"
    requires SkipFrom(c.subject, 1, c.skip) == 2
    ensures Unsigned(BothRadixes)(c, 1) == Ok(c, 3, 5)
  {
    MinusFiveShape(c.subject);
    StrAbsent("0", c, 1, 2);
    StrAbsent("0b", c, 1, 2);
    StrAbsent("0x", c, 1, 2);
    PrefixedWithoutPrefix("0", Digits(OctalDigits, 8), c, 1);
    PrefixedWithoutPrefix("0b", Digits(BinaryDigits, 2), c, 1);
    PrefixedWithoutPrefix("0x", Digits(HexDigits, 16), c, 1);
    DecimalFive(c);
    ChoiceSpec(Prefixed("0x", Digits(HexDigits, 16)), Digits(DecimalDigits, 10), c, 1);
    ChoiceSpec(Prefixed("0b", Digits(BinaryDigits, 2)), CommonLiteral(), c, 1);
    ChoiceSpec(Prefixed("0", Digits(OctalDigits, 8)), WithBinary(BothRadixes), c, 1);
  }

  /** The decimal digits after the blank of "- 5" read as 5. */
  lemma {:induction false} DecimalFive(c: Config)
    requires c.subject == "- 5"
    requires SkipFrom(c.subject, 1, c.skip) == 2
    ensures Digits(DecimalDigits, 10)(c, 1) == Ok(c, 3, 5)
  {
    FiveShape(c.subject);
    PlusMatch(IsDigit, "5", 1);
    RegexAtStop(DecimalDigits, c, 1, 2, 1);
    BaseValueSingle('5', 10);
    SelectSpec(Regex(DecimalDigits), (x: string) => BaseValue(x, 10) as int, c, 1);
  }

  lemma FiveShape(s: string)
    requires s == "- 5"
    ensures s[2..] == "5" && s[2..2 + 1] == "5" && "5" == ['5'] && DigitValue('5') == 5
  {
  }

  /** A pattern parser matches where the skip pattern stops. */
  lemma {:induction false} RegexAtStop(pat: Pattern, c: Config, pos: nat, at: nat, n: nat)
    requires SkipFrom(c.subject, pos, c.skip) == at && at <= |c.subject|
    requires pat.matcher(c.subject[at..]) == Some(n) && at + n <= |c.subject|
    ensures Regex(pat)(c, pos) == Ok(c, at + n, c.subject[at..at + n])
  {
  }

  /** A mapped pattern without a skip pattern: the mapping of the `n` characters matched. */
  lemma {:induction false} SelectOfRegex<U>(pat: Pattern, f: string -> U, c: Config, pos: nat, n: nat, end: nat)
    requires c.skip.None? && end == pos + n && end <= |c.subject|
    requires pat.matcher(c.subject[pos..]) == Some(n)
    ensures Select(Regex(pat), f)(c, pos) == Ok(c, end, f(c.subject[pos..end]))
  {
    RegexAtStop(pat, c, pos, pos, n);
    SelectSpec(Regex(pat), f, c, pos);
  }

  /** With the blank pattern, skipping stops at the sign of "- 5" and after the blank. */
  lemma {:induction false} BlankStopsOfMinusFive(s: string)
    requires s == "- 5"
    ensures SkipFrom(s, 0, Some(Blanks)) == 0 && SkipFrom(s, 1, Some(Blanks)) == 2
  {
    BlanksSkipped(s, 0, 0);
    BlanksSkipped(s, 1, 1);
  }

  /** A wrong middle literal is reported by its own message, whatever the skip pattern. */
  lemma {:induction false} Seven65ReportsMiddle(c: Config)
    requires c.subject == "7  5  5"
    requires SkipFrom(c.subject, 0, c.skip) == 0
    requires SkipFrom(c.subject, 1, c.skip) == 3
    ensures Seven65()(c, 0) == Err("Does not match 6")
  {
    StrPresent("7", c, 0, 0);
    assert c.subject[3..4] == "5";
    StrAbsent("6", c, 1, 3);
    Concat3Spec(Str("7"), Str("6"), Str("5"), c, 0);
    assert "Does not match " + "6" == "Does not match 6";
  }

  // ----- Balanced parentheses with Letrec1 -----

  function Unbalanced(t: string): string { "Unbalanced parenthesis" }

  /** The builder of the balanced-parenthesis grammar: "(" then the grammar or nothing, then ")". */
  function ParenBuilder(x: Parser<string>): Parser<string>
  {
    SelectError(Concat3(Str("("), Choice(x, Str("")), Str(")")), Unbalanced)
  }

  function Opens(k: nat): string { seq(k, i => '(') }
  function Closes(k: nat): string { seq(k, i => ')') }

  /** One more unfolding is one more application of the builder. */
  lemma {:induction false} UnfoldParen(n: nat, m: nat)
    requires n == m + 1
    ensures Unfold1(ParenBuilder, n) == ParenBuilder(Unfold1(ParenBuilder, m))
  {
  }

  /** The grammar fails where no "(" starts, whatever its inner parser. */
  lemma {:induction false} ParenNeedsOpenOf(inner: Parser<string>, c: Config, p: nat)
    requires c.skip.None? && p <= |c.subject|
    requires !(p + 1 <= |c.subject| && c.subject[p..p + 1] == "(")
    ensures ParenBuilder(inner)(c, p).Err?
  {
    StrAbsent("(", c, p, p);
    Concat3Spec(Str("("), Choice(inner, Str("")), Str(")"), c, p);
    SelectErrorSpec(Concat3(Str("("), Choice(inner, Str("")), Str(")")), Unbalanced, c, p);
  }

  /** The grammar, unfolded any number of times, fails where no "(" starts. */
  lemma {:induction false} ParenNeedsOpen(n: nat, c: Config, p: nat)
    requires c.skip.None? && p <= |c.subject|
    requires !(p + 1 <= |c.subject| && c.subject[p..p + 1] == "(")
    ensures Unfold1(ParenBuilder, n)(c, p).Err?
  {
    if n > 0 {
      ParenNeedsOpenAt(n, n - 1, c, p);
    }
  }

  lemma {:induction false} ParenNeedsOpenAt(n: nat, m: nat, c: Config, p: nat)
    requires n == m + 1 && c.skip.None? && p <= |c.subject|
    requires !(p + 1 <= |c.subject| && c.subject[p..p + 1] == "(")
    ensures Unfold1(ParenBuilder, n)(c, p).Err?
  {
    ParenNeedsOpenOf(Unfold1(ParenBuilder, m), c, p);
    UnfoldParen(n, m);
  }

  /** One round of the grammar whose inner alternative stops at q, where ")" follows. */
  lemma {:induction false} ParenClosed(inner: Parser<string>, c: Config, p: nat, q: nat, v: string)
    requires c.skip.None? && p + 1 <= |c.subject| && c.subject[p..p + 1] == "("
    requires Choice(inner, Str(""))(c, p + 1) == Ok(c, q, v)
    requires q + 1 <= |c.subject| && c.subject[q..q + 1] == ")"
    ensures ParenBuilder(inner)(c, p) == Ok(c, q + 1, "(" + v + ")")
  {
    StrPresent("(", c, p, p);
    StrPresent(")", c, q, q);
    Concat3Spec(Str("("), Choice(inner, Str("")), Str(")"), c, p);
    SelectErrorSpec(Concat3(Str("("), Choice(inner, Str("")), Str(")")), Unbalanced, c, p);
  }

  /** One round of the grammar whose inner alternative stops at q, where no ")" follows. */
  lemma {:induction false} ParenUnclosed(inner: Parser<string>, c: Config, p: nat, q: nat, v: string)
    requires c.skip.None? && p + 1 <= |c.subject| && c.subject[p..p + 1] == "("
    requires Choice(inner, Str(""))(c, p + 1) == Ok(c, q, v)
    requires !(q + 1 <= |c.subject| && c.subject[q..q + 1] == ")")
    ensures ParenBuilder(inner)(c, p) == Err("Unbalanced parenthesis")
  {
    StrPresent("(", c, p, p);
    StrAbsent(")", c, q, q);
    Concat3Spec(Str("("), Choice(inner, Str("")), Str(")"), c, p);
    SelectErrorSpec(Concat3(Str("("), Choice(inner, Str("")), Str(")")), Unbalanced, c, p);
  }

  /** Where the inner grammar fails, the inner alternative matches empty. */
  lemma {:induction false} InnerEmpty(m: nat, c: Config, p: nat)
    requires c.skip.None? && p + 1 <= |c.subject|
    requires !(p + 2 <= |c.subject| && c.subject[p + 1..p + 2] == "(")
    ensures Choice(Unfold1(ParenBuilder, m), Str(""))(c, p + 1) == Ok(c, p + 1, "")
  {
    ParenNeedsOpen(m, c, p + 1);
    EmptyStrMatches(c, p + 1);
    ChoiceSpec(Unfold1(ParenBuilder, m), Str(""), c, p + 1);
  }

  /** k nested pairs are "(", k - 1 nested pairs, ")". */
  lemma {:induction false} NestedShape(s: string, p: nat, k: nat)
    requires 1 <= k && p + 2 * k <= |s|
    requires s[p..p + k] == Opens(k) && s[p + k..p + 2 * k] == Closes(k)
    ensures s[p..p + 1] == "(" && s[p + 2 * k - 1..p + 2 * k] == ")"
    ensures s[p + 1 + 2 * (k - 1)..p + 1 + 2 * (k - 1) + 1] == ")"
    ensures s[p + 1..p + 1 + (k - 1)] == Opens(k - 1)
    ensures s[p + 1 + (k - 1)..p + 1 + 2 * (k - 1)] == Closes(k - 1)
    ensures Opens(k) + Closes(k) == "(" + (Opens(k - 1) + Closes(k - 1)) + ")"
  {
    assert s[p..p + 1] == s[p..p + k][..1];
    assert s[p + 2 * k - 1..p + 2 * k] == s[p + k..p + 2 * k][k - 1..];
    assert s[p + 1..p + k] == s[p..p + k][1..];
    assert s[p + k..p + 2 * k - 1] == s[p + k..p + 2 * k][..k - 1];
  }

  /**
   * With enough unfolding, the grammar accepts k nested pairs at any
   * position and yields exactly the text it consumed.
   */
  lemma {:induction false} ParensAccepted(n: nat, k: nat, c: Config, p: nat)
    requires 1 <= k <= n && c.skip.None?
    requires p + 2 * k <= |c.subject|
    requires c.subject[p..p + k] == Opens(k) && c.subject[p + k..p + 2 * k] == Closes(k)
    ensures Unfold1(ParenBuilder, n)(c, p) == Ok(c, p + 2 * k, Opens(k) + Closes(k))
    decreases k, 1
  {
    NestedShape(c.subject, p, k);
    if k == 1 {
      ParensBase(n, n - 1, c, p);
      OnePair();
    } else {
      ParensStep(n, n - 1, k, c, p, p + 1 + 2 * (k - 1));
    }
  }

  lemma {:induction false} OnePair()
    ensures Opens(1) + Closes(1) == "(" + "" + ")"
  {
    assert Opens(1) == "(" && Closes(1) == ")";
  }

  /** The base case: "()" is read, the inner grammar failing on ")". */
  lemma {:induction false} ParensBase(n: nat, m: nat, c: Config, p: nat)
    requires n == m + 1 && c.skip.None? && p + 2 <= |c.subject|
    requires c.subject[p..p + 1] == "(" && c.subject[p + 1..p + 2] == ")"
    ensures Unfold1(ParenBuilder, n)(c, p) == Ok(c, p + 2, "(" + "" + ")")
  {
    InnerEmpty(m, c, p);
    ParenClosed(Unfold1(ParenBuilder, m), c, p, p + 1, "");
    UnfoldParen(n, m);
  }

  /** The inductive step: the inner alternative reads the k - 1 inner pairs. */
  lemma {:induction false} ParensStep(n: nat, m: nat, k: nat, c: Config, p: nat, q: nat)
    requires n == m + 1 && 2 <= k <= n && c.skip.None? && p + 2 * k <= |c.subject|
    requires q == p + 1 + 2 * (k - 1) && q + 1 == p + 2 * k
    requires c.subject[p..p + 1] == "(" && c.subject[q..q + 1] == ")"
    requires c.subject[p + 1..p + 1 + (k - 1)] == Opens(k - 1)
    requires c.subject[p + 1 + (k - 1)..p + 1 + 2 * (k - 1)] == Closes(k - 1)
    ensures Unfold1(ParenBuilder, n)(c, p) ==
            Ok(c, q + 1, "(" + (Opens(k - 1) + Closes(k - 1)) + ")")
    decreases k, 0
  {
    ParensAccepted(m, k - 1, c, p + 1);
    InnerPairs(Unfold1(ParenBuilder, m), c, p + 1, q, Opens(k - 1) + Closes(k - 1));
    ParenClosed(Unfold1(ParenBuilder, m), c, p, q, Opens(k - 1) + Closes(k - 1));
    UnfoldParen(n, m);
  }

  /** When the inner grammar reads the nested pairs, the choice takes them. */
  lemma {:induction false} InnerPairs(inner: Parser<string>, c: Config, pos: nat, q: nat, v: string)
    requires inner(c, pos) == Ok(c, q, v)
    ensures Choice(inner, Str(""))(c, pos) == Ok(c, q, v)
  {
    ChoiceSpec(inner, Str(""), c, pos);
  }

  /** In the memo-cell model: a grammar of depth three accepts "((()))" fully. */
  method ParensThroughMemo() returns (r: Result<string>)
    ensures r == Ok(Config("((()))", None), 6, "((()))")
  {
    var g := new Letrec1(ParenBuilder, 3);
    r := g.Invoke(Config("((()))", None), 0);
    assert g.Built() == Unfold1(ParenBuilder, 4);
    ThreePairs(Config("((()))", None));
  }

  lemma {:induction false} ThreePairs(c: Config)
    requires c == Config("((()))", None)
    ensures Unfold1(ParenBuilder, 4)(c, 0) == Ok(c, 6, "((()))")
  {
    ThreePairsShape(c.subject);
    ParensAccepted(4, 3, c, 0);
  }

  lemma {:induction false} ThreePairsShape(s: string)
    requires s == "((()))"
    ensures s[0..3] == Opens(3) && s[3..6] == Closes(3) && Opens(3) + Closes(3) == s
  {
    assert Opens(3) == "(((" && Closes(3) == ")))";
  }

  /** j + 1 opening and j closing parentheses: "(" then j nested pairs. */
  lemma {:induction false} UnclosedShape(s: string, j: nat)
    requires s == Opens(j + 1) + Closes(j)
    ensures |s| == 2 * j + 1 && s[0..1] == "("
    ensures s[1..1 + j] == Opens(j) && s[1 + j..1 + 2 * j] == Closes(j)
  {
    assert s[0..1] == Opens(j + 1)[..1];
    assert s[1..1 + j] == Opens(j + 1)[1..];
  }

  /** A missing last parenthesis, as in "((())", is reported with the grammar's own message. */
  lemma {:induction false} UnclosedRejected(n: nat, k: nat, c: Config)
    requires 1 <= k <= n && c.skip.None?
    requires c.subject == Opens(k) + Closes(k - 1)
    ensures Unfold1(ParenBuilder, n)(c, 0) == Err("Unbalanced parenthesis")
  {
    UnclosedShape(c.subject, k - 1);
    UnclosedFrom(n, k - 1, c);
  }

  /** The source's own unbalanced input, through the memo cell of depth three. */
  method UnclosedThroughMemo() returns (r: Result<string>)
    ensures r == Err("Unbalanced parenthesis")
  {
    var g := new Letrec1(ParenBuilder, 3);
    r := g.Invoke(Config("((())", None), 0);
    assert g.Built() == Unfold1(ParenBuilder, 4);
    assert Opens(3) == "(((" && Closes(2) == "))";
    assert "((())" == Opens(3) + Closes(2);
    UnclosedRejected(4, 3, Config("((())", None));
  }

  /** "(" followed by j nested pairs and nothing else. */
  lemma {:induction false} UnclosedFrom(n: nat, j: nat, c: Config)
    requires j < n && c.skip.None? && |c.subject| == 2 * j + 1 && c.subject[0..1] == "("
    requires c.subject[1..1 + j] == Opens(j) && c.subject[1 + j..1 + 2 * j] == Closes(j)
    ensures Unfold1(ParenBuilder, n)(c, 0) == Err("Unbalanced parenthesis")
  {
    if j == 0 {
      UnclosedBase(n, n - 1, c);
    } else {
      UnclosedNested(n, n - 1, j, c);
    }
  }

  lemma {:induction false} UnclosedBase(n: nat, m: nat, c: Config)
    requires n == m + 1 && c.skip.None? && |c.subject| == 1 && c.subject[0..1] == "("
    ensures Unfold1(ParenBuilder, n)(c, 0) == Err("Unbalanced parenthesis")
  {
    InnerEmpty(m, c, 0);
    ParenUnclosed(Unfold1(ParenBuilder, m), c, 0, 1, "");
    UnfoldParen(n, m);
  }

  lemma {:induction false} UnclosedNested(n: nat, m: nat, j: nat, c: Config)
    requires n == m + 1 && 1 <= j <= m && c.skip.None? && |c.subject| == 2 * j + 1 && c.subject[0..1] == "("
    requires c.subject[1..1 + j] == Opens(j) && c.subject[1 + j..1 + 2 * j] == Closes(j)
    ensures Unfold1(ParenBuilder, n)(c, 0) == Err("Unbalanced parenthesis")
  {
    ParensAccepted(m, j, c, 1);
    ChoiceSpec(Unfold1(ParenBuilder, m), Str(""), c, 1);
    ParenUnclosed(Unfold1(ParenBuilder, m), c, 0, 1 + 2 * j, Opens(j) + Closes(j));
    UnfoldParen(n, m);
  }

  // ----- DelimitRight as written, on "1+2" -----

  /** What the "+" parser reads on "1+2". */
  lemma {:induction false} PlusOfOnePlusTwo(c: Config)
    requires c.skip.None? && c.subject == "1+2"
    ensures Str("+")(c, 1) == Ok(c, 2, "+") && Str("+")(c, 3).Err?
  {
    assert c.subject[1..2] == "+";
    StrPresent("+", c, 1, 1);
    StrAbsent("+", c, 3, 3);
  }

  /** Digits delimited by "+" can be repeated. */
  lemma {:induction false} DigitsByPlusRepeatable()
    ensures Repeatable(Digit(), Str("+"))
  {
    DigitAdvances();
    StrLiteralKeeps("+");
    AdvancingRepeatable(Digit(), Str("+"));
  }

  /**
   * On "1+2" DelimitRight as written yields 1 and stops after the "+",
   * while the corrected DelimitRight yields 1 + 2 and reads everything.
   */
  lemma {:induction false} DelimitRightOnOnePlusTwo(c: Config)
    requires Repeatable(Digit(), Str("+"))
    requires c.skip.None? && c.subject == "1+2"
    ensures DelimitRightAsWritten(Digit(), Str("+"), AddAround)(c, 0) == Ok(c, 2, 1)
    ensures DelimitRight(Digit(), Str("+"), AddAround)(c, 0) == Ok(c, 3, 3)
  {
    PlusOfOnePlusTwo(c);
    DigitReads(c, 0, 1, 1);
    DigitReads(c, 2, 3, 2);
    AsWrittenDropsLastOf(Digit(), Str("+"), AddAround, c, 0, 1, 2, 3, 1, "+", 2);
  }

  /** The digit parser on a digit, with its value. */
  lemma {:induction false} DigitReads(c: Config, pos: nat, next: nat, v: int)
    requires next == pos + 1 && c.skip.None? && next <= |c.subject|
    requires IsDigit(c.subject[pos]) && DigitValue(c.subject[pos]) == v
    ensures Digit()(c, pos) == Ok(c, next, v)
  {
    DigitMatch(c.subject[pos..]);
    DecimalOfOneChar(DigitPattern, c, pos);
  }

  // ----- A row of cells: an element that may match empty, delimited by "," -----

  predicate IsCellChar(ch: char) { ch != '"' && ch != ',' && ch != '\n' }

  /** The unquoted cell of a comma-separated row, `[^",\n]*`, which may be empty. */
  const CellPattern: Pattern := Pattern("[^\",\n]*", Repeat("", IsCellChar, 0, None))

  function CellList(x: string): seq<string> { [x] }

  function Cell(): Parser<seq<string>>
  {
    Select(Regex(CellPattern), CellList)
  }

  function JoinCells(a: seq<string>, d: string, b: seq<string>): seq<string> { a + b }

  /** Cells delimited by ",": every round consumes the comma, though a cell may be empty. */
  lemma {:induction false} CellsRepeatable()
    ensures Repeatable(Cell(), Str(","))
  {
    RegexKeeps(CellPattern, "Does not match pattern " + CellPattern.text);
    CombinatorsKeep(Regex(CellPattern), Regex(CellPattern), CellList, (m: string) => m, (x: string) => true, "");
    DelimiterRepeatable(Cell(), ",");
  }

  /** A row of unquoted cells joined into one list; quoted cells are not part of this row. */
  function Row(): Parser<seq<string>>
  {
    CellsRepeatable();
    Delimit(Cell(), Str(","), JoinCells)
  }

  /** Without a skip pattern, a cell is the run of cell characters at the position, possibly empty. */
  lemma {:induction false} CellReads(c: Config, pos: nat, n: nat, end: nat)
    requires c.skip.None? && end == pos + n && end <= |c.subject|
    requires forall i :: pos <= i < end ==> IsCellChar(c.subject[i])
    requires end == |c.subject| || !IsCellChar(c.subject[end])
    ensures Cell()(c, pos) == Ok(c, end, [c.subject[pos..end]])
  {
    CellRunMatches(c.subject, pos, n, end);
    CellOfRun(c, pos, n, end);
  }

  /** A cell whose pattern matched `n` characters at the position. */
  lemma {:induction false} CellOfRun(c: Config, pos: nat, n: nat, end: nat)
    requires c.skip.None? && end == pos + n && end <= |c.subject|
    requires CellPattern.matcher(c.subject[pos..]) == Some(n)
    ensures Cell()(c, pos) == Ok(c, end, [c.subject[pos..end]])
  {
    SelectOfRegex(CellPattern, CellList, c, pos, n, end);
  }

  /** The cell pattern matches exactly the run of cell characters. */
  lemma {:induction false} CellRunMatches(s: string, pos: nat, n: nat, end: nat)
    requires end == pos + n && end <= |s|
    requires forall i :: pos <= i < end ==> IsCellChar(s[i])
    requires end == |s| || !IsCellChar(s[end])
    ensures CellPattern.matcher(s[pos..]) == Some(n)
  {
    var t := s[pos..];
    forall i | 0 <= i < n ensures IsCellChar(t[i]) {
      assert t[i] == s[pos + i];
    }
    if end < |s| {
      assert t[n] == s[end];
    }
    assert t[|""|..] == t;
    RunLengthExact(t, IsCellChar, |t|, n);
  }

  /**
   * On "a,,b" the row has three cells, the middle one empty, and reads the
   * whole subject.
   */
  lemma {:induction false} RowWithEmptyCell(c: Config)
    requires c.skip.None? && c.subject == "a,,b"
    ensures Row()(c, 0) == Ok(c, 4, ["a", "", "b"])
  {
    CellsRepeatable();
    RowCells(c);
    RowChain(c);
    DelimitIsFoldLeft(Cell(), Str(","), JoinCells, c, 0);
    RowFold();
  }

  /** The three cells of "a,,b". */
  lemma {:induction false} RowCells(c: Config)
    requires c.skip.None? && c.subject == "a,,b"
    ensures Cell()(c, 0) == Ok(c, 1, ["a"])
    ensures Cell()(c, 2) == Ok(c, 2, [""])
    ensures Cell()(c, 3) == Ok(c, 4, ["b"])
  {
    RowFirstCell(c);
    RowEmptyCell(c);
    RowLastCell(c);
  }

  lemma {:induction false} RowFirstCell(c: Config)
    requires c.skip.None? && c.subject == "a,,b"
    ensures Cell()(c, 0) == Ok(c, 1, ["a"])
  {
    RowShape(c.subject);
    CellReads(c, 0, 1, 1);
  }

  lemma {:induction false} RowEmptyCell(c: Config)
    requires c.skip.None? && c.subject == "a,,b"
    ensures Cell()(c, 2) == Ok(c, 2, [""])
  {
    RowShape(c.subject);
    CellReads(c, 2, 0, 2);
  }

  lemma {:induction false} RowLastCell(c: Config)
    requires c.skip.None? && c.subject == "a,,b"
    ensures Cell()(c, 3) == Ok(c, 4, ["b"])
  {
    RowShape(c.subject);
    CellReads(c, 3, 1, 4);
  }

  /** The commas of "a,,b", and none at its end. */
  lemma {:induction false} RowCommas(c: Config)
    requires c.skip.None? && c.subject == "a,,b"
    ensures Str(",")(c, 1) == Ok(c, 2, ",")
    ensures Str(",")(c, 2) == Ok(c, 3, ",")
    ensures Str(",")(c, 4).Err?
  {
    RowShape(c.subject);
    StrPresent(",", c, 1, 1);
    StrPresent(",", c, 2, 2);
    StrAbsent(",", c, 4, 4);
  }

  /** After the first cell, the chain of "a,,b" is the empty cell and "b". */
  lemma {:induction false} RowChain(c: Config)
    requires c.skip.None? && c.subject == "a,,b"
    ensures Repeatable(Cell(), Str(","))
    ensures Chain(Cell(), Str(","), c, 1) == [(",", [""]), (",", ["b"])]
    ensures ChainEnd(Cell(), Str(","), c, 1) == 4
  {
    CellsRepeatable();
    RowChainAt2(c);
    RowEmptyCell(c);
    RowCommas(c);
    ChainStep(Cell(), Str(","), c, 1);
    assert Chain(Cell(), Str(","), c, 1) == [(",", [""])] + Chain(Cell(), Str(","), c, 2);
    RowLinks();
  }

  lemma RowLinks()
    ensures [(",", [""])] + [(",", ["b"])] == [(",", [""]), (",", ["b"])]
  {
    var links: seq<(string, seq<string>)> := [(",", [""])] + [(",", ["b"])];
    assert links[0] == (",", [""]) && links[1] == (",", ["b"]);
  }

  lemma {:induction false} RowChainAt2(c: Config)
    requires c.skip.None? && c.subject == "a,,b"
    ensures Repeatable(Cell(), Str(","))
    ensures Chain(Cell(), Str(","), c, 2) == [(",", ["b"])]
    ensures ChainEnd(Cell(), Str(","), c, 2) == 4
  {
    CellsRepeatable();
    RowChainAt4(c);
    RowLastCell(c);
    RowCommas(c);
    ChainStep(Cell(), Str(","), c, 2);
  }

  lemma {:induction false} RowChainAt4(c: Config)
    requires c.skip.None? && c.subject == "a,,b"
    ensures Repeatable(Cell(), Str(","))
    ensures Chain(Cell(), Str(","), c, 4) == []
    ensures ChainEnd(Cell(), Str(","), c, 4) == 4
  {
    CellsRepeatable();
    RowCommas(c);
    ChainStep(Cell(), Str(","), c, 4);
  }

  lemma RowShape(s: string)
    requires s == "a,,b"
    ensures s[0..1] == "a" && s[2..2] == "" && s[3..4] == "b"
    ensures s[1..1 + |","|] == "," && s[2..2 + |","|] == ","
    ensures IsCellChar(s[0]) && !IsCellChar(s[1]) && !IsCellChar(s[2]) && IsCellChar(s[3])
  {
  }

  lemma RowFold()
    ensures FoldLeft(JoinCells, ["a"], [(",", [""]), (",", ["b"])]) == ["a", "", "b"]
  {
    var links: seq<(string, seq<string>)> := [(",", [""]), (",", ["b"])];
    assert links[1..][1..] == [];
  }
}
