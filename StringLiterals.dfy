/**
 * The string literal parser of MonadPrimusParserOpt.cs, built from the
 * combinators of ParserCore and Repetition as the source builds it: a
 * choice of fragment parsers (the escape table, the numeric escapes each
 * switched on by a flag, a run of plain characters), repeated with
 * ZeroOrMore, between two quotes, with every failure renamed to the
 * literal's error message.
 *
 * Without a skip pattern, each fragment parser reads exactly what the
 * corresponding scanner of StringScan describes, and so does the literal.
 */
module StringLiterals {
  import opened Wrappers
  import opened ParserCore
  import opened Matchers
  import opened Numerals
  import opened Escapes
  import opened Repetition
  import opened StringScan

  const DefaultMessage := "Does not match a string literal"

  // ----- The regular expressions -----

  const EscapePattern := Pattern("\\\\.", Repeat("\\", NotNewline, 1, Some(1)))
  const OctalPattern := Pattern("\\\\[0-3][0-7][0-7]", Sequence("\\", [IsQuaternaryDigit, IsOctalDigit, IsOctalDigit]))
  const UnicodexPattern := Pattern("\\\\x[0-9A-Fa-f]{1,4}", Repeat("\\x", IsHexDigit, 1, Some(4)))
  const HexPairPattern := Pattern("\\\\x[0-9A-Fa-f][0-9A-Fa-f]", Repeat("\\x", IsHexDigit, 2, Some(2)))
  const UnicodePattern := Pattern("\\\\u[0-9A-Fa-f]{4,4}", Repeat("\\u", IsHexDigit, 4, Some(4)))
  const HexRunPattern := Pattern("[0-9A-Fa-f]+", Plus(IsHexDigit))
  const LongPattern := Pattern("\\\\U[0-9A-Fa-f]{8,8}", Repeat("\\U", IsHexDigit, 8, Some(8)))

  /** `[^\\q\n]+`, or `[^\\q]+` when newlines are allowed. */
  function PlainPattern(quote: char, newline: bool): Pattern
  {
    Pattern("[^\\\\" + [quote] + (if newline then "" else "\n") + "]+", Plus(PlainClass(quote, newline)))
  }

  // ----- What each fragment stands for -----

  /** x.Substring(n), for the n characters of a prefix the pattern guarantees. */
  function After(x: string, n: nat): string
  {
    if n <= |x| then x[n..] else ""
  }

  function OctalText(x: string): string { CodeUnit(BaseValue(After(x, 1), 8)) }

  function HexText(x: string): string { CodeUnit(BaseValue(After(x, 2), 16)) }

  function LongText(x: string): Option<string> { CodePointToString(HexToInt(After(x, 2))) }

  function BracedText(x: string): Option<string> { CodePointToString(HexToInt(x)) }

  function EscapeText(esc: char -> Option<string>, x: string): Option<string>
  {
    if 2 <= |x| then esc(x[1]) else None
  }

  predicate IsDefined(text: Option<string>) { text.Some? }

  function ValueOf(text: Option<string>): string { if text.Some? then text.value else "" }

  // ----- The fragment parsers -----

  /** A parser whose text may be missing, kept only when it is not (MatchIf(x => x != null)). */
  function Checked(p: Parser<Option<string>>): Parser<string>
  {
    Select(MatchIf(p, IsDefined), ValueOf)
  }

  /** from a in open from x in inner from b in close select x. */
  function Between<A, B>(open: Parser<A>, inner: Parser<string>, close: Parser<B>): Parser<string>
  {
    SelectMany(open, (a: A) => SelectMany3(inner, (x: string) => close, (x: string, b: B) => x))
  }

  function EscapeTextOf(esc: char -> Option<string>): string -> Option<string>
  {
    (x: string) => EscapeText(esc, x)
  }

  function EscapeAlt(esc: char -> Option<string>): Parser<string>
  {
    Checked(Select(Regex(EscapePattern), EscapeTextOf(esc)))
  }

  function OctalAlt(): Parser<string> { Select(Regex(OctalPattern), OctalText) }

  function UnicodexAlt(): Parser<string> { Select(Regex(UnicodexPattern), HexText) }

  function HexPairAlt(): Parser<string> { Select(Regex(HexPairPattern), HexText) }

  function UnicodeAlt(): Parser<string> { Select(Regex(UnicodePattern), HexText) }

  function BracedAlt(): Parser<string>
  {
    Checked(Select(Between(Str("\\u{"), Regex(HexRunPattern), Str("}")), BracedText))
  }

  function LongAlt(): Parser<string> { Checked(Select(Regex(LongPattern), LongText)) }

  function PlainAlt(quote: char, newline: bool): Parser<string> { Regex(PlainPattern(quote, newline)) }

  /** letter = p.Choice(letter) when the flag is set. */
  function Prepend(flag: bool, p: Parser<string>, rest: Parser<string>): Parser<string>
  {
    if flag then Choice(p, rest) else rest
  }

  /** The numeric escapes, each put in front of what came before, in the order the source adds them. */
  function Numeric(flags: nat, base: Parser<string>): Parser<string>
  {
    NumericOf(flags, LongAlt(), BracedAlt(), UnicodeAlt(), HexPairAlt(), UnicodexAlt(), OctalAlt(), base)
  }

  /** The chain of flagged alternatives, for any six alternatives. */
  function NumericOf(flags: nat, long: Parser<string>, braced: Parser<string>, unicode: Parser<string>,
                     hexPair: Parser<string>, unicodex: Parser<string>, octal: Parser<string>,
                     base: Parser<string>): Parser<string>
  {
    Prepend(HasFlag(flags, CSharpStyleCodePoint), long,
    Prepend(HasFlag(flags, JSStyleCodePoint), braced,
    Prepend(HasFlag(flags, Unicode), unicode,
    Prepend(HasFlag(flags, Hexadecimal), hexPair,
    Prepend(HasFlag(flags, Unicodex), unicodex,
    Prepend(HasFlag(flags, Octal), octal, base))))))
  }

  /** The fragment parser as the source builds it: the escape table is put in front last, so it is tried first. */
  function LetterAsWritten(quote: char, esc: char -> Option<string>, flags: nat): Parser<string>
  {
    Choice(EscapeAlt(esc), Numeric(flags, PlainAlt(quote, HasFlag(flags, IncludeNewline))))
  }

  /** The fragment parser with the escape table after the numeric escapes and before the plain run. */
  function Letter(quote: char, esc: char -> Option<string>, flags: nat): Parser<string>
  {
    Numeric(flags, Choice(EscapeAlt(esc), PlainAlt(quote, HasFlag(flags, IncludeNewline))))
  }

  function Concat(x: string, y: string): string { x + y }

  function Rename(message: string): string -> string
  {
    (m: string) => message
  }

  /** The quote, the fragments concatenated, the quote; any failure reported as message. */
  function Literal(quote: char, letter: Parser<string>, message: string): Parser<string>
    requires Advancing(letter)
  {
    SelectError(Between(Str([quote]), ZeroOrMore(letter, Concat, ""), Str([quote])), Rename(message))
  }

  function StringLiteralAsWritten(quote: char, esc: char -> Option<string>, flags: nat, message: string): Parser<string>
  {
    LetterAsWrittenAdvances(quote, esc, flags);
    Literal(quote, LetterAsWritten(quote, esc, flags), message)
  }

  function StringLiteral(quote: char, esc: char -> Option<string>, flags: nat, message: string): Parser<string>
  {
    LetterAdvances(quote, esc, flags);
    Literal(quote, Letter(quote, esc, flags), message)
  }

  // ----- The language presets -----

  const JSFlags: nat := Octal + Hexadecimal + Unicode + JSStyleCodePoint
  const JavaFlags: nat := Octal + Unicode
  const CFlags: nat := Octal + Hexadecimal
  const CSharpFlags: nat := Unicodex + Unicode + CSharpStyleCodePoint

  /** A double-quoted string literal with the alternatives in the source's order, as every preset is. */
  function DoubleQuoted(esc: char -> Option<string>, flags: nat, message: string): Parser<string>
  {
    StringLiteralAsWritten('"', esc, flags, message)
  }

  /** The presets: an escape table and a set of flags each. */
  function JSStringLiteral(message: string): Parser<string> { DoubleQuoted(JSEscapeChar, JSFlags, message) }

  function JavaStringLiteral(message: string): Parser<string> { DoubleQuoted(JavaEscapeChar, JavaFlags, message) }

  function CStringLiteral(message: string): Parser<string> { DoubleQuoted(CEscapeChar, CFlags, message) }

  function CSharpStringLiteral(message: string): Parser<string> { DoubleQuoted(CSharpEscapeChar, CSharpFlags, message) }

  /** The C preset with the numeric escapes tried before the escape table. */
  function CStringLiteralIntended(message: string): Parser<string>
  {
    StringLiteral('"', CEscapeChar, CFlags, message)
  }

  // ----- Every fragment parser consumes input -----

  lemma {:induction false} PatternAdvances(pat: Pattern)
    requires forall s :: pat.matcher(s) != Some(0)
    ensures Advancing(Regex(pat))
  {
    RegexKeeps(pat, "Does not match pattern " + pat.text);
  }

  lemma {:induction false} CheckedAdvances(p: Parser<Option<string>>)
    requires Advancing(p)
    ensures Advancing(Checked(p))
  {
    MatchIfAdvances(p, IsDefined);
    SelectAdvances(MatchIf(p, IsDefined), ValueOf);
  }

  lemma {:induction false} PrependAdvances(flag: bool, p: Parser<string>, rest: Parser<string>)
    requires Advancing(p) && Advancing(rest)
    ensures Advancing(Prepend(flag, p, rest))
  {
    if flag {
      ChoiceAdvances(p, rest);
    }
  }

  lemma {:induction false} EscapeAdvances(esc: char -> Option<string>)
    ensures Advancing(EscapeAlt(esc))
  {
    forall s ensures EscapePattern.matcher(s) != Some(0) {
      RepeatNonEmpty("\\", NotNewline, 1, Some(1), s);
    }
    PatternAdvances(EscapePattern);
    SelectAdvances(Regex(EscapePattern), (x: string) => EscapeText(esc, x));
    CheckedAdvances(Select(Regex(EscapePattern), (x: string) => EscapeText(esc, x)));
  }

  lemma {:induction false} RegexAltsAdvance()
    ensures Advancing(OctalAlt()) && Advancing(UnicodexAlt()) && Advancing(HexPairAlt()) && Advancing(UnicodeAlt())
  {
    forall s ensures OctalPattern.matcher(s) != Some(0) {
      SequenceNonEmpty("\\", [IsQuaternaryDigit, IsOctalDigit, IsOctalDigit], s);
    }
    forall s ensures UnicodexPattern.matcher(s) != Some(0) && HexPairPattern.matcher(s) != Some(0) &&
                     UnicodePattern.matcher(s) != Some(0) {
      RepeatNonEmpty("\\x", IsHexDigit, 1, Some(4), s);
      RepeatNonEmpty("\\x", IsHexDigit, 2, Some(2), s);
      RepeatNonEmpty("\\u", IsHexDigit, 4, Some(4), s);
    }
    PatternAdvances(OctalPattern);
    PatternAdvances(UnicodexPattern);
    PatternAdvances(HexPairPattern);
    PatternAdvances(UnicodePattern);
    SelectAdvances(Regex(OctalPattern), OctalText);
    SelectAdvances(Regex(UnicodexPattern), HexText);
    SelectAdvances(Regex(HexPairPattern), HexText);
    SelectAdvances(Regex(UnicodePattern), HexText);
  }

  lemma {:induction false} LongAdvances()
    ensures Advancing(LongAlt())
  {
    forall s ensures LongPattern.matcher(s) != Some(0) {
      RepeatNonEmpty("\\U", IsHexDigit, 8, Some(8), s);
    }
    PatternAdvances(LongPattern);
    SelectAdvances(Regex(LongPattern), LongText);
    CheckedAdvances(Select(Regex(LongPattern), LongText));
  }

  lemma {:induction false} BracedAdvances()
    ensures Advancing(BracedAlt())
  {
    var inner := Regex(HexRunPattern);
    StrLiteralKeeps("\\u{");
    StrLiteralKeeps("}");
    RegexKeeps(HexRunPattern, "Does not match pattern " + HexRunPattern.text);
    BetweenAdvances(Str("\\u{"), inner, Str("}"));
    SelectAdvances(Between(Str("\\u{"), inner, Str("}")), BracedText);
    CheckedAdvances(Select(Between(Str("\\u{"), inner, Str("}")), BracedText));
  }

  lemma {:induction false} BetweenAdvances<A, B>(open: Parser<A>, inner: Parser<string>, close: Parser<B>)
    requires Advancing(open) && Keeps(inner) && Keeps(close)
    ensures Advancing(Between(open, inner, close))
  {
    InnerKeeps(inner, close);
    SelectManyKeeps(open, (a: A) => SelectMany3(inner, (x: string) => close, (x: string, b: B) => x));
  }

  lemma {:induction false} InnerKeeps<B>(inner: Parser<string>, close: Parser<B>)
    requires Keeps(inner) && Keeps(close)
    ensures Keeps(SelectMany3(inner, (x: string) => close, (x: string, b: B) => x))
  {
    var p := SelectMany3(inner, (x: string) => close, (x: string, b: B) => x);
    forall c: Config, pos: nat | p(c, pos).Ok?
      ensures p(c, pos).config == c && pos <= p(c, pos).pos <= Max(pos, |c.subject|)
    {
      SelectMany3Spec(inner, (x: string) => close, (x: string, b: B) => x, c, pos);
      var r1 := inner(c, pos);
      assert r1.Ok?;
      var r2 := close(r1.config, r1.pos);
      assert r2.Ok?;
    }
  }

  lemma {:induction false} PlainAdvances(quote: char, newline: bool)
    ensures Advancing(PlainAlt(quote, newline))
  {
    forall s ensures PlainPattern(quote, newline).matcher(s) != Some(0) {
      RepeatNonEmpty("", PlainClass(quote, newline), 1, None, s);
    }
    PatternAdvances(PlainPattern(quote, newline));
  }

  lemma {:induction false} NumericAdvances(flags: nat, base: Parser<string>)
    requires Advancing(base)
    ensures Advancing(Numeric(flags, base))
  {
    RegexAltsAdvance();
    LongAdvances();
    BracedAdvances();
    NumericOfAdvances(flags, LongAlt(), BracedAlt(), UnicodeAlt(), HexPairAlt(), UnicodexAlt(), OctalAlt(), base);
  }

  /** A chain of advancing alternatives advances. */
  lemma {:induction false} NumericOfAdvances(flags: nat, long: Parser<string>, braced: Parser<string>, unicode: Parser<string>,
                                            hexPair: Parser<string>, unicodex: Parser<string>, octal: Parser<string>,
                                            base: Parser<string>)
    requires Advancing(long) && Advancing(braced) && Advancing(unicode)
    requires Advancing(hexPair) && Advancing(unicodex) && Advancing(octal) && Advancing(base)
    ensures Advancing(NumericOf(flags, long, braced, unicode, hexPair, unicodex, octal, base))
  {
    PrependAdvances(HasFlag(flags, Octal), octal, base);
    PrependAdvances(HasFlag(flags, Unicodex), unicodex, Prepend(HasFlag(flags, Octal), octal, base));
    NumericTailAdvances(flags, long, braced, unicode, hexPair,
                        Prepend(HasFlag(flags, Unicodex), unicodex, Prepend(HasFlag(flags, Octal), octal, base)));
  }

  lemma {:induction false} NumericTailAdvances(flags: nat, long: Parser<string>, braced: Parser<string>,
                                              unicode: Parser<string>, hexPair: Parser<string>, rest: Parser<string>)
    requires Advancing(long) && Advancing(braced) && Advancing(unicode) && Advancing(hexPair) && Advancing(rest)
    ensures Advancing(Prepend(HasFlag(flags, CSharpStyleCodePoint), long,
                      Prepend(HasFlag(flags, JSStyleCodePoint), braced,
                      Prepend(HasFlag(flags, Unicode), unicode,
                      Prepend(HasFlag(flags, Hexadecimal), hexPair, rest)))))
  {
    PrependAdvances(HasFlag(flags, Hexadecimal), hexPair, rest);
    PrependAdvances(HasFlag(flags, Unicode), unicode, Prepend(HasFlag(flags, Hexadecimal), hexPair, rest));
    PrependAdvances(HasFlag(flags, JSStyleCodePoint), braced,
                    Prepend(HasFlag(flags, Unicode), unicode, Prepend(HasFlag(flags, Hexadecimal), hexPair, rest)));
    PrependAdvances(HasFlag(flags, CSharpStyleCodePoint), long,
                    Prepend(HasFlag(flags, JSStyleCodePoint), braced,
                    Prepend(HasFlag(flags, Unicode), unicode, Prepend(HasFlag(flags, Hexadecimal), hexPair, rest))));
  }

  /** The escape-table alternative or the plain run advances. */
  lemma {:induction false} TableOrPlainAdvances(quote: char, esc: char -> Option<string>, newline: bool)
    ensures Advancing(Choice(EscapeAlt(esc), PlainAlt(quote, newline)))
  {
    EscapeAdvances(esc);
    PlainAdvances(quote, newline);
    ChoiceAdvances(EscapeAlt(esc), PlainAlt(quote, newline));
  }

  /** The fragment parser consumes at least one character whenever it succeeds. */
  lemma {:induction false} LetterAdvances(quote: char, esc: char -> Option<string>, flags: nat)
    ensures Advancing(Letter(quote, esc, flags))
  {
    NumericOverTableAdvances(quote, esc, flags);
  }

  lemma {:induction false} NumericOverTableAdvances(quote: char, esc: char -> Option<string>, flags: nat)
    ensures Advancing(Numeric(flags, Choice(EscapeAlt(esc), PlainAlt(quote, HasFlag(flags, IncludeNewline)))))
  {
    TableOrPlainAdvances(quote, esc, HasFlag(flags, IncludeNewline));
    NumericAdvances(flags, Choice(EscapeAlt(esc), PlainAlt(quote, HasFlag(flags, IncludeNewline))));
  }

  /** The escape-table alternative in front of any advancing parser advances. */
  lemma {:induction false} TableInFrontAdvances(esc: char -> Option<string>, rest: Parser<string>)
    requires Advancing(rest)
    ensures Advancing(Choice(EscapeAlt(esc), rest))
  {
    EscapeAdvances(esc);
    ChoiceAdvances(EscapeAlt(esc), rest);
  }

  /** So does the fragment parser as the source builds it. */
  lemma {:induction false} LetterAsWrittenAdvances(quote: char, esc: char -> Option<string>, flags: nat)
    ensures Advancing(LetterAsWritten(quote, esc, flags))
  {
    PlainAdvances(quote, HasFlag(flags, IncludeNewline));
    NumericAdvances(flags, PlainAlt(quote, HasFlag(flags, IncludeNewline)));
    TableInFrontAdvances(esc, Numeric(flags, PlainAlt(quote, HasFlag(flags, IncludeNewline))));
  }

  // ----- Each fragment parser reads what its scanner describes -----

  /** A parser's result at pos is the scanner's fragment of the text from pos: where it ends and its text, or a failure. */
  ghost predicate Agrees(r: Result<string>, c: Config, pos: nat, tok: Option<Token>)
  {
    if tok.None? then r.Err? else r == Ok(c, pos + tok.value.length, tok.value.text)
  }

  /** Without a skip pattern, a transformed pattern parser yields f of the text its matcher matched at pos. */
  lemma {:induction false} SelectRegexNoSkip<U>(pat: Pattern, f: string -> U, c: Config, pos: nat)
    requires c.skip.None? && pos <= |c.subject|
    ensures var t := c.subject[pos..];
            pat.matcher(t).None? ==> Select(Regex(pat), f)(c, pos).Err?
    ensures var t := c.subject[pos..];
            pat.matcher(t).Some? ==>
              pat.matcher(t).value <= |t| &&
              Select(Regex(pat), f)(c, pos) == Ok(c, pos + pat.matcher(t).value, f(t[..pat.matcher(t).value]))
  {
    RegexNoSkip(pat, "Does not match pattern " + pat.text, c, pos);
    var t := c.subject[pos..];
    if pat.matcher(t).Some? {
      var n := pat.matcher(t).value;
      assert c.subject[pos..pos + n] == t[..n];
    }
  }

  /** Checked keeps a success whose text is defined, and fails otherwise. */
  lemma {:induction false} CheckedSpec(p: Parser<Option<string>>, c: Config, pos: nat)
    ensures p(c, pos).Err? ==> Checked(p)(c, pos).Err?
    ensures p(c, pos).Ok? && p(c, pos).value.None? ==> Checked(p)(c, pos).Err?
    ensures p(c, pos).Ok? && p(c, pos).value.Some? ==>
              Checked(p)(c, pos) == Ok(p(c, pos).config, p(c, pos).pos, p(c, pos).value.value)
  {
    MatchIfSpec(p, IsDefined, c, pos);
    SelectSpec(MatchIf(p, IsDefined), ValueOf, c, pos);
  }

  /** A transformed pattern parser reads tok when its matcher matches tok's length and f gives tok's text. */
  lemma {:induction false} SelectRegexAgrees(pat: Pattern, f: string -> string, c: Config, pos: nat, tok: Option<Token>)
    requires c.skip.None? && pos <= |c.subject|
    requires pat.matcher(c.subject[pos..]).None? <==> tok.None?
    requires tok.Some? ==> pat.matcher(c.subject[pos..]) == Some(tok.value.length) &&
                           tok.value.text == f(c.subject[pos..][..tok.value.length])
    ensures Agrees(Select(Regex(pat), f)(c, pos), c, pos, tok)
  {
    SelectRegexNoSkip(pat, f, c, pos);
  }

  /** The same for a pattern whose text may be missing: a missing text is a failure. */
  lemma {:induction false} CheckedRegexAgrees(pat: Pattern, f: string -> Option<string>, c: Config, pos: nat, tok: Option<Token>)
    requires c.skip.None? && pos <= |c.subject|
    requires tok.Some? ==> pat.matcher(c.subject[pos..]) == Some(tok.value.length) &&
                           f(c.subject[pos..][..tok.value.length]) == Some(tok.value.text)
    requires tok.None? ==> pat.matcher(c.subject[pos..]).None? ||
                           f(c.subject[pos..][..pat.matcher(c.subject[pos..]).value]).None?
    ensures Agrees(Checked(Select(Regex(pat), f))(c, pos), c, pos, tok)
  {
    SelectRegexNoSkip(pat, f, c, pos);
    CheckedSpec(Select(Regex(pat), f), c, pos);
  }

  /** A pattern with a fixed number of characters of one class after a prefix. */
  lemma {:induction false} RepeatExactMatch(prefix: string, cls: char -> bool, n: nat, t: string, lp: nat, m: nat)
    requires lp == |prefix| && m == lp + n
    ensures Repeat(prefix, cls, n, Some(n))(t) ==
            if prefix <= t && lp <= m <= |t| && (forall k :: lp <= k < m ==> cls(t[k]))
            then Some(m) else None
  {
    if prefix <= t {
      RunLengthFull(t[lp..], cls, n);
      if n <= |t[lp..]| {
        ShiftedClass(t, cls, lp, n, m);
      }
    }
  }

  /** The first n characters after position lp are all in the class, said two ways. */
  lemma ShiftedClass(t: string, cls: char -> bool, lp: nat, n: nat, m: nat)
    requires m == lp + n <= |t|
    ensures (forall i :: 0 <= i < n ==> cls(t[lp..][i])) <==> (forall k :: lp <= k < m ==> cls(t[k]))
  {
    var r := t[lp..];
    if forall i :: 0 <= i < n ==> cls(r[i]) {
      forall k | lp <= k < m ensures cls(t[k]) {
        assert t[k] == r[k - lp];
      }
    }
    if forall k :: lp <= k < m ==> cls(t[k]) {
      forall i | 0 <= i < n ensures cls(r[i]) {
        assert r[i] == t[i + lp];
      }
    }
  }

  /** A prefix and one character from each of three classes. */
  lemma {:induction false} SequenceOfThree(prefix: string, a: char -> bool, b: char -> bool, d: char -> bool, t: string)
    ensures Sequence(prefix, [a, b, d])(t) ==
            if |prefix| + 3 <= |t| && prefix <= t && a(t[|prefix|]) && b(t[|prefix| + 1]) && d(t[|prefix| + 2])
            then Some(|prefix| + 3) else None
  {
    var classes := [a, b, d];
    if |prefix| + 3 <= |t| && prefix <= t && a(t[|prefix|]) && b(t[|prefix| + 1]) && d(t[|prefix| + 2]) {
      forall i | 0 <= i < |classes| ensures classes[i](t[|prefix| + i]) {
        if i == 0 {
        } else if i == 1 {
        } else {
        }
      }
    } else if |prefix| + 3 <= |t| && prefix <= t {
      assert !(classes[0](t[|prefix| + 0]) && classes[1](t[|prefix| + 1]) && classes[2](t[|prefix| + 2]));
    }
  }


  /** A one-character prefix is at the start of t exactly when t starts with it. */
  lemma {:induction false} OneCharPrefix(p: string, t: string)
    requires |p| == 1
    ensures p <= t <==> 1 <= |t| && t[0] == p[0]
  {
    if 1 <= |t| && t[0] == p[0] {
      assert t[..1] == p;
    }
  }

  // Each alternative: what its matcher and its text function do on a text t,
  // stated in the form SelectRegexAgrees and CheckedRegexAgrees take.

  lemma {:induction false} OctalMatch(t: string)
    ensures OctalPattern.matcher(t).None? <==> ScanOctal(t).None?
    ensures ScanOctal(t).Some? ==>
              OctalPattern.matcher(t) == Some(ScanOctal(t).value.length) &&
              ScanOctal(t).value.text == OctalText(t[..ScanOctal(t).value.length])
  {
    SequenceOfThree("\\", IsQuaternaryDigit, IsOctalDigit, IsOctalDigit, t);
    OneCharPrefix("\\", t);
    if ScanOctal(t).Some? {
      assert After(t[..4], 1) == t[1..4];
    }
  }

  lemma {:induction false} OctalAgrees(c: Config, pos: nat)
    requires c.skip.None? && pos <= |c.subject|
    ensures Agrees(OctalAlt()(c, pos), c, pos, ScanOctal(c.subject[pos..]))
  {
    OctalMatch(c.subject[pos..]);
    SelectRegexAgrees(OctalPattern, OctalText, c, pos, ScanOctal(c.subject[pos..]));
  }

  lemma {:induction false} HexPairMatch(t: string)
    ensures HexPairPattern.matcher(t).None? <==> ScanHexPair(t).None?
    ensures ScanHexPair(t).Some? ==>
              HexPairPattern.matcher(t) == Some(ScanHexPair(t).value.length) &&
              ScanHexPair(t).value.text == HexText(t[..ScanHexPair(t).value.length])
  {
    FixedHexMatch("\\x", 2, t, 4, ScanHexPair(t));
  }

  lemma {:induction false} HexPairAgrees(c: Config, pos: nat)
    requires c.skip.None? && pos <= |c.subject|
    ensures Agrees(HexPairAlt()(c, pos), c, pos, ScanHexPair(c.subject[pos..]))
  {
    HexPairMatch(c.subject[pos..]);
    SelectRegexAgrees(HexPairPattern, HexText, c, pos, ScanHexPair(c.subject[pos..]));
  }

  lemma {:induction false} UnicodeMatch(t: string)
    ensures UnicodePattern.matcher(t).None? <==> ScanUnicode(t).None?
    ensures ScanUnicode(t).Some? ==>
              UnicodePattern.matcher(t) == Some(ScanUnicode(t).value.length) &&
              ScanUnicode(t).value.text == HexText(t[..ScanUnicode(t).value.length])
  {
    FixedHexMatch("\\u", 4, t, 6, ScanUnicode(t));
  }

  /**
   * A two-character prefix and exactly n hex digits: the matcher finds them
   * exactly where the scanner does, and the text is that of the digits.
   */
  lemma {:induction false} FixedHexMatch(prefix: string, n: nat, t: string, m: nat, tok: Option<Token>)
    requires |prefix| == 2 && m == 2 + n
    requires tok == if prefix <= t && HexDigitsAt(t, 2, m) then Some(Token(m, CodeUnit(BaseValue(t[2..m], 16)))) else None
    ensures Repeat(prefix, IsHexDigit, n, Some(n))(t).None? <==> tok.None?
    ensures tok.Some? ==>
              Repeat(prefix, IsHexDigit, n, Some(n))(t) == Some(tok.value.length) &&
              tok.value.text == HexText(t[..tok.value.length])
  {
    RepeatExactMatch(prefix, IsHexDigit, n, t, 2, m);
    if tok.Some? {
      HexTextOfPrefix(t, m);
    }
  }

  /** The text of the first m characters of t is the value of the digits after the two-character prefix. */
  lemma {:induction false} HexTextOfPrefix(t: string, m: nat)
    requires 2 <= m <= |t|
    ensures HexText(t[..m]) == CodeUnit(BaseValue(t[2..m], 16))
  {
    AfterPrefix(t, 2, m);
  }

  lemma {:induction false} UnicodeAgrees(c: Config, pos: nat)
    requires c.skip.None? && pos <= |c.subject|
    ensures Agrees(UnicodeAlt()(c, pos), c, pos, ScanUnicode(c.subject[pos..]))
  {
    UnicodeMatch(c.subject[pos..]);
    SelectRegexAgrees(UnicodePattern, HexText, c, pos, ScanUnicode(c.subject[pos..]));
  }

  lemma {:induction false} LongMatch(t: string)
    ensures ScanLong(t).Some? ==>
              LongPattern.matcher(t) == Some(ScanLong(t).value.length) &&
              LongText(t[..ScanLong(t).value.length]) == Some(ScanLong(t).value.text)
    ensures ScanLong(t).None? ==>
              LongPattern.matcher(t).None? || LongText(t[..LongPattern.matcher(t).value]).None?
  {
    RepeatExactMatch("\\U", IsHexDigit, 8, t, 2, 10);
    if "\\U" <= t && HexDigitsAt(t, 2, 10) {
      AfterPrefix(t, 2, 10);
    }
  }

  lemma {:induction false} LongAgrees(c: Config, pos: nat)
    requires c.skip.None? && pos <= |c.subject|
    ensures Agrees(LongAlt()(c, pos), c, pos, ScanLong(c.subject[pos..]))
  {
    LongMatch(c.subject[pos..]);
    CheckedRegexAgrees(LongPattern, LongText, c, pos, ScanLong(c.subject[pos..]));
  }

  /** Dropping n characters from the first m of t leaves t[n..m]. */
  lemma {:induction false} AfterPrefix(t: string, n: nat, m: nat)
    requires n <= m <= |t|
    ensures After(t[..m], n) == t[n..m]
  {
  }

  /** A bounded Repeat matcher, written out. */
  lemma {:induction false} RepeatBoundedMatch(prefix: string, cls: char -> bool, min: nat, max: nat, t: string)
    ensures Repeat(prefix, cls, min, Some(max))(t) ==
            if prefix <= t && min <= RunLength(t[|prefix|..], cls, max)
            then Some(|prefix| + RunLength(t[|prefix|..], cls, max)) else None
  {
  }

  lemma {:induction false} UnicodexMatch(t: string)
    ensures UnicodexPattern.matcher(t).None? <==> ScanUnicodex(t).None?
    ensures ScanUnicodex(t).Some? ==>
              UnicodexPattern.matcher(t) == Some(ScanUnicodex(t).value.length) &&
              ScanUnicodex(t).value.text == HexText(t[..ScanUnicodex(t).value.length])
  {
    RepeatBoundedMatch("\\x", IsHexDigit, 1, 4, t);
    if "\\x" <= t {
      var n := RunLength(t[2..], IsHexDigit, 4);
      if 1 <= n {
        UnicodexFound(t, n);
      }
    }
  }

  /** A `\x` escape with n hex digits: the pattern's match and the scanner's token agree. */
  lemma {:induction false} UnicodexFound(t: string, n: nat)
    requires "\\x" <= t && n == RunLength(t[2..], IsHexDigit, 4) && 1 <= n
    ensures UnicodexPattern.matcher(t) == Some(2 + n)
    ensures ScanUnicodex(t) == Some(Token(2 + n, HexText(t[..2 + n])))
  {
    RepeatBoundedMatch("\\x", IsHexDigit, 1, 4, t);
    AfterPrefix(t, 2, 2 + n);
  }

  lemma {:induction false} UnicodexAgrees(c: Config, pos: nat)
    requires c.skip.None? && pos <= |c.subject|
    ensures Agrees(UnicodexAlt()(c, pos), c, pos, ScanUnicodex(c.subject[pos..]))
  {
    UnicodexMatch(c.subject[pos..]);
    SelectRegexAgrees(UnicodexPattern, HexText, c, pos, ScanUnicodex(c.subject[pos..]));
  }

  lemma {:induction false} EscapeMatch(esc: char -> Option<string>, t: string)
    ensures ScanEscape(esc, t).Some? ==>
              EscapePattern.matcher(t) == Some(ScanEscape(esc, t).value.length) &&
              EscapeTextOf(esc)(t[..ScanEscape(esc, t).value.length]) == Some(ScanEscape(esc, t).value.text)
    ensures ScanEscape(esc, t).None? ==>
              EscapePattern.matcher(t).None? || EscapeTextOf(esc)(t[..EscapePattern.matcher(t).value]).None?
  {
    EscapeMatcher(t);
    if 2 <= |t| {
      assert t[..2][1] == t[1];
    }
  }

  /** The escape pattern matches a backslash and one character other than a newline. */
  lemma {:induction false} EscapeMatcher(t: string)
    ensures EscapePattern.matcher(t) == if 2 <= |t| && t[0] == '\\' && t[1] != '\n' then Some(2) else None
  {
    OneCharPrefix("\\", t);
    if "\\" <= t {
      RunLengthFull(t[1..], NotNewline, 1);
      if 2 <= |t| {
        assert t[1..][0] == t[1];
      }
    }
  }

  lemma {:induction false} EscapeAgrees(esc: char -> Option<string>, c: Config, pos: nat)
    requires c.skip.None? && pos <= |c.subject|
    ensures Agrees(EscapeAlt(esc)(c, pos), c, pos, ScanEscape(esc, c.subject[pos..]))
  {
    EscapeMatch(esc, c.subject[pos..]);
    CheckedRegexAgrees(EscapePattern, EscapeTextOf(esc), c, pos, ScanEscape(esc, c.subject[pos..]));
  }

  /** A pattern parser reads tok when its matcher matches exactly tok's text. */
  lemma {:induction false} RegexAgrees(pat: Pattern, c: Config, pos: nat, tok: Option<Token>)
    requires c.skip.None? && pos <= |c.subject|
    requires pat.matcher(c.subject[pos..]).None? <==> tok.None?
    requires tok.Some? ==> pat.matcher(c.subject[pos..]) == Some(tok.value.length) &&
                           tok.value.text == c.subject[pos..][..tok.value.length]
    ensures Agrees(Regex(pat)(c, pos), c, pos, tok)
  {
    RegexNoSkip(pat, "Does not match pattern " + pat.text, c, pos);
    if tok.Some? {
      assert c.subject[pos..pos + tok.value.length] == c.subject[pos..][..tok.value.length];
    }
  }

  /** Plus matches the whole run of its class at the start, when it is not empty. */
  lemma {:induction false} PlusRun(cls: char -> bool, t: string)
    ensures Plus(cls)(t) == if 0 < RunLength(t, cls, |t|) then Some(RunLength(t, cls, |t|)) else None
  {
    assert t[|""|..] == t;
  }

  lemma {:induction false} PlainAgrees(quote: char, newline: bool, c: Config, pos: nat)
    requires c.skip.None? && pos <= |c.subject|
    ensures Agrees(PlainAlt(quote, newline)(c, pos), c, pos, ScanPlain(quote, newline, c.subject[pos..]))
  {
    var t := c.subject[pos..];
    PlusRun(PlainClass(quote, newline), t);
    RegexAgrees(PlainPattern(quote, newline), c, pos, ScanPlain(quote, newline, t));
  }

  /** Between runs the opener, the inner parser and the closer in turn and yields the inner text. */
  lemma {:induction false} BetweenSpec<A, B>(open: Parser<A>, inner: Parser<string>, close: Parser<B>, c: Config, pos: nat)
    ensures open(c, pos).Err? ==> Between(open, inner, close)(c, pos).Err?
    ensures open(c, pos).Ok? ==>
              var r1 := open(c, pos);
              var r2 := inner(r1.config, r1.pos);
              (r2.Err? ==> Between(open, inner, close)(c, pos).Err?) &&
              (r2.Ok? ==>
                 var r3 := close(r2.config, r2.pos);
                 (r3.Err? ==> Between(open, inner, close)(c, pos).Err?) &&
                 (r3.Ok? ==> Between(open, inner, close)(c, pos) == Ok(r3.config, r3.pos, r2.value)))
  {
    var m := (a: A) => SelectMany3(inner, (x: string) => close, (x: string, b: B) => x);
    SelectManySpec(open, m, c, pos);
    var r1 := open(c, pos);
    if r1.Ok? {
      SelectMany3Spec(inner, (x: string) => close, (x: string, b: B) => x, r1.config, r1.pos);
    }
  }

  /** Without a skip pattern, a literal is read exactly where the text starts with it. */
  lemma {:induction false} StrNoSkip(a: string, c: Config, pos: nat)
    requires c.skip.None? && pos <= |c.subject|
    ensures a <= c.subject[pos..] ==> Str(a)(c, pos) == Ok(c, pos + |a|, a)
    ensures !(a <= c.subject[pos..]) ==> Str(a)(c, pos).Err?
  {
    StrSpec(a, "Does not match " + a, c, pos);
  }

  /** The number of hex digits between `\u{` and `}`, when t starts with such an escape. */
  function BracedDigits(t: string): Option<nat>
  {
    if "\\u{" <= t then
      var n := RunLength(t[3..], IsHexDigit, |t|);
      if 1 <= n && 3 + n < |t| && t[3 + n] == '}' then Some(n) else None
    else None
  }

  /** A literal, a pattern and a literal in turn, without a skip pattern: a failure when any part is missing. */
  lemma {:induction false} BetweenLiteralsMissing(a: string, pat: Pattern, b: string, c: Config, pos: nat)
    requires c.skip.None? && pos <= |c.subject|
    requires var t := c.subject[pos..];
             !(a <= t) || pat.matcher(t[|a|..]).None? ||
             !(b <= t[|a| + pat.matcher(t[|a|..]).value..])
    ensures Between(Str(a), Regex(pat), Str(b))(c, pos).Err?
  {
    var t := c.subject[pos..];
    if !(a <= t) {
      StrNoSkip(a, c, pos);
      BetweenOpenFails(Str(a), Regex(pat), Str(b), c, pos);
    } else {
      var la := |a|;
      var p1 := pos + la;
      StrRead(a, c, pos, la, p1);
      SuffixSlice(c.subject, pos, la, la);
      match pat.matcher(t[la..])
      case None =>
        RegexNoSkip(pat, "Does not match pattern " + pat.text, c, p1);
        BetweenInnerFails(Str(a), Regex(pat), Str(b), c, pos, p1, a);
      case Some(n) =>
        RegexAt(pat, c, p1, n);
        var p2 := p1 + n;
        SuffixSlice(c.subject, pos, la + n, la + n);
        assert !(b <= c.subject[p2..]);
        StrNoSkip(b, c, p2);
        BetweenCloseFails(Str(a), Regex(pat), Str(b), c, pos, p1, p2, a, c.subject[p1..p2]);
    }
  }

  /** Between fails when its opening parser fails. */
  lemma {:induction false} BetweenOpenFails<A, B>(open: Parser<A>, inner: Parser<string>, close: Parser<B>, c: Config, pos: nat)
    requires open(c, pos).Err?
    ensures Between(open, inner, close)(c, pos).Err?
  {
    BetweenSpec(open, inner, close, c, pos);
  }

  /** Between fails when its inner parser fails after the opening one. */
  lemma {:induction false} BetweenInnerFails<A, B>(open: Parser<A>, inner: Parser<string>, close: Parser<B>, c: Config, pos: nat,
                                                  p1: nat, va: A)
    requires open(c, pos) == Ok(c, p1, va) && inner(c, p1).Err?
    ensures Between(open, inner, close)(c, pos).Err?
  {
    BetweenSpec(open, inner, close, c, pos);
  }

  /** Between fails when its closing parser fails after the other two. */
  lemma {:induction false} BetweenCloseFails<A, B>(open: Parser<A>, inner: Parser<string>, close: Parser<B>, c: Config, pos: nat,
                                                  p1: nat, p2: nat, va: A, v: string)
    requires open(c, pos) == Ok(c, p1, va) && inner(c, p1) == Ok(c, p2, v) && close(c, p2).Err?
    ensures Between(open, inner, close)(c, pos).Err?
  {
    BetweenSpec(open, inner, close, c, pos);
  }

  /** A literal of length len read at pos ends at next. */
  lemma {:induction false} StrRead(a: string, c: Config, pos: nat, len: nat, next: nat)
    requires c.skip.None? && pos <= |c.subject| && a <= c.subject[pos..]
    requires |a| == len && next == pos + len
    ensures Str(a)(c, pos) == Ok(c, next, a)
  {
    StrNoSkip(a, c, pos);
  }

  /** Three successes in turn make Between succeed with the inner value. */
  lemma {:induction false} BetweenOk<A, B>(open: Parser<A>, inner: Parser<string>, close: Parser<B>, c: Config, pos: nat,
                        p1: nat, p2: nat, p3: nat, va: A, v: string, vb: B)
    requires open(c, pos) == Ok(c, p1, va)
    requires inner(c, p1) == Ok(c, p2, v)
    requires close(c, p2) == Ok(c, p3, vb)
    ensures Between(open, inner, close)(c, pos) == Ok(c, p3, v)
  {
    BetweenSpec(open, inner, close, c, pos);
  }

  /** Without a skip pattern, a pattern that matches n characters at pos reads them. */
  lemma {:induction false} RegexAt(pat: Pattern, c: Config, pos: nat, n: nat)
    requires c.skip.None? && pos <= |c.subject|
    requires pat.matcher(c.subject[pos..]) == Some(n)
    ensures pos + n <= |c.subject|
    ensures Regex(pat)(c, pos) == Ok(c, pos + n, c.subject[pos..pos + n])
  {
    RegexNoSkip(pat, "Does not match pattern " + pat.text, c, pos);
  }

  /** A literal, a pattern matching n characters and a literal in turn yield the n characters. */
  lemma {:induction false} BetweenLiteralsPresent(a: string, pat: Pattern, b: string, c: Config, pos: nat, n: nat,
                                                 la: nat, lb: nat, end: nat)
    requires |a| == la && |b| == lb && end == pos + la + n + lb
    requires c.skip.None? && pos + la + n <= |c.subject|
    requires a <= c.subject[pos..]
    requires pat.matcher(c.subject[pos + la..]) == Some(n)
    requires b <= c.subject[pos + la + n..]
    ensures Between(Str(a), Regex(pat), Str(b))(c, pos) ==
            Ok(c, end, c.subject[pos + la..pos + la + n])
  {
    var p1, p2 := pos + la, pos + la + n;
    StrRead(a, c, pos, la, p1);
    RegexAt(pat, c, p1, n);
    StrRead(b, c, p2, lb, end);
    BetweenOk(Str(a), Regex(pat), Str(b), c, pos, p1, p2, end, a, c.subject[p1..p2], b);
  }

  /** Slices of a suffix are slices of the whole. */
  lemma {:induction false} SuffixSlice(s: string, pos: nat, i: nat, j: nat)
    requires pos + i <= pos + j <= |s|
    ensures s[pos..][i..] == s[pos + i..]
    ensures s[pos..][j..] == s[pos + j..]
    ensures s[pos..][i..j] == s[pos + i..pos + j]
  {
  }

  /** Where BracedDigits finds n digits, the three parts of the escape are there, seen from the whole subject. */
  lemma {:induction false} BracedDigitsAt(s: string, pos: nat)
    requires pos <= |s| && BracedDigits(s[pos..]).Some?
    ensures var n := BracedDigits(s[pos..]).value;
            1 <= n && pos + 4 + n <= |s| && "\\u{" <= s[pos..] &&
            n == RunLength(s[pos + 3..], IsHexDigit, |s[pos + 3..]|) &&
            "}" <= s[pos + 3 + n..] &&
            s[pos..][3..3 + n] == s[pos + 3..pos + 3 + n]
  {
    var t := s[pos..];
    var n := BracedDigits(t).value;
    SuffixSlice(s, pos, 3, 3 + n);
    RunLengthUnbounded(t[3..], IsHexDigit, |t[3..]|, |t|);
    OneCharPrefix("}", s[pos + 3 + n..]);
    assert s[pos + 3 + n..][0] == t[3 + n];
  }

  /** The pattern matches the whole run of hex digits at the start of x, when it is not empty. */
  predicate MatchesHexRun(pat: Pattern, x: string)
  {
    pat.matcher(x) == if 0 < RunLength(x, IsHexDigit, |x|) then Some(RunLength(x, IsHexDigit, |x|)) else None
  }

  /** Where BracedDigits finds nothing, one of the three parts of the braced escape is missing. */
  lemma {:induction false} BracedMissingParts(pat: Pattern, s: string, pos: nat)
    requires pos <= |s|
    requires pos + 3 <= |s| ==> MatchesHexRun(pat, s[pos + 3..])
    requires BracedDigits(s[pos..]).None?
    ensures var t := s[pos..];
            !("\\u{" <= t) || pat.matcher(t[3..]).None? || !("}" <= t[3 + pat.matcher(t[3..]).value..])
  {
    var t := s[pos..];
    if "\\u{" <= t {
      var rest := t[3..];
      SuffixSlice(s, pos, 3, 3);
      RunLengthUnbounded(rest, IsHexDigit, |rest|, |t|);
      var n := RunLength(rest, IsHexDigit, |t|);
      if 1 <= n {
        OneCharPrefix("}", t[3 + n..]);
      }
    }
  }

  lemma {:induction false} BracedMissingWith(pat: Pattern, c: Config, pos: nat)
    requires c.skip.None? && pos <= |c.subject|
    requires pos + 3 <= |c.subject| ==> MatchesHexRun(pat, c.subject[pos + 3..])
    requires BracedDigits(c.subject[pos..]).None?
    ensures Between(Str("\\u{"), Regex(pat), Str("}"))(c, pos).Err?
  {
    BracedMissingParts(pat, c.subject, pos);
    BetweenLiteralsMissing("\\u{", pat, "}", c, pos);
  }

  /** Checked(Select(b, f)) reads tok when b reads tok's length and f gives tok's text, or fails accordingly. */
  lemma {:induction false} CheckedSelectAgrees(b: Parser<string>, f: string -> Option<string>, c: Config, pos: nat, tok: Option<Token>)
    requires tok.None? ==> b(c, pos).Err? || f(b(c, pos).value).None?
    requires tok.Some? ==> b(c, pos).Ok? && b(c, pos).config == c && b(c, pos).pos == pos + tok.value.length &&
                           f(b(c, pos).value) == Some(tok.value.text)
    ensures Agrees(Checked(Select(b, f))(c, pos), c, pos, tok)
  {
    SelectSpec(b, f, c, pos);
    CheckedSpec(Select(b, f), c, pos);
  }

  /** Checked(Select(b, f)) where b reads x over len characters. */
  lemma {:induction false} CheckedFound(b: Parser<string>, f: string -> Option<string>, c: Config, pos: nat, len: nat, x: string)
    requires b(c, pos) == Ok(c, pos + len, x)
    ensures Agrees(Checked(Select(b, f))(c, pos), c, pos, Defined(len, f(x)))
  {
    CheckedSelectAgrees(b, f, c, pos, Defined(len, f(x)));
  }

  /** Checked(Select(b, f)) where b fails. */
  lemma {:induction false} CheckedMissing(b: Parser<string>, f: string -> Option<string>, c: Config, pos: nat)
    requires b(c, pos).Err?
    ensures Agrees(Checked(Select(b, f))(c, pos), c, pos, None)
  {
    CheckedSelectAgrees(b, f, c, pos, None);
  }

  /** ScanBraced in terms of BracedDigits, seen from the whole subject. */
  lemma {:induction false} ScanBracedAt(s: string, pos: nat)
    requires pos <= |s|
    ensures BracedDigits(s[pos..]).None? ==> ScanBraced(s[pos..]).None?
    ensures BracedDigits(s[pos..]).Some? ==>
              pos + 3 + BracedDigits(s[pos..]).value <= |s| &&
              ScanBraced(s[pos..]) ==
              Defined(4 + BracedDigits(s[pos..]).value,
                      BracedText(s[pos + 3..pos + 3 + BracedDigits(s[pos..]).value]))
  {
    if BracedDigits(s[pos..]).Some? {
      var n := BracedDigits(s[pos..]).value;
      SuffixSlice(s, pos, 3, 3 + n);
    }
  }

  /** ScanBraced where BracedDigits finds n digits. */
  lemma {:induction false} ScanBracedFound(s: string, pos: nat, n: nat)
    requires pos <= |s| && BracedDigits(s[pos..]) == Some(n)
    ensures pos + 3 + n <= |s|
    ensures ScanBraced(s[pos..]) == Defined(4 + n, BracedText(s[pos + 3..pos + 3 + n]))
  {
    ScanBracedAt(s, pos);
  }

  /** Agreement with a token carries over to an equal token. */
  lemma {:induction false} AgreesWithEqual(r: Result<string>, c: Config, pos: nat, a: Option<Token>, b: Option<Token>)
    requires Agrees(r, c, pos, a) && a == b
    ensures Agrees(r, c, pos, b)
  {
  }

  /** Where BracedDigits finds n digits, the three parts of the braced escape are there. */
  lemma {:induction false} BracedMatchAt(pat: Pattern, s: string, pos: nat, n: nat)
    requires pos <= |s|
    requires pos + 3 <= |s| ==> MatchesHexRun(pat, s[pos + 3..])
    requires BracedDigits(s[pos..]) == Some(n)
    ensures pos + 4 + n <= |s| && "\\u{" <= s[pos..]
    ensures pat.matcher(s[pos + 3..]) == Some(n)
    ensures "}" <= s[pos + 3 + n..]
  {
    BracedDigitsAt(s, pos);
  }

  lemma {:induction false} BracedFoundWith(pat: Pattern, c: Config, pos: nat, n: nat)
    requires c.skip.None? && pos + 4 + n <= |c.subject| && "\\u{" <= c.subject[pos..]
    requires pat.matcher(c.subject[pos + 3..]) == Some(n)
    requires "}" <= c.subject[pos + 3 + n..]
    ensures Between(Str("\\u{"), Regex(pat), Str("}"))(c, pos) == Ok(c, pos + 4 + n, c.subject[pos + 3..pos + 3 + n])
  {
    BetweenLiteralsPresent("\\u{", pat, "}", c, pos, n, 3, 1, pos + 4 + n);
  }

  lemma {:induction false} BracedAgreesFound(pat: Pattern, c: Config, pos: nat, n: nat)
    requires c.skip.None? && pos <= |c.subject|
    requires pos + 3 <= |c.subject| ==> MatchesHexRun(pat, c.subject[pos + 3..])
    requires BracedDigits(c.subject[pos..]) == Some(n)
    ensures Agrees(Checked(Select(Between(Str("\\u{"), Regex(pat), Str("}")), BracedText))(c, pos),
                   c, pos, ScanBraced(c.subject[pos..]))
  {
    BracedMatchAt(pat, c.subject, pos, n);
    BracedFoundWith(pat, c, pos, n);
    BracedReadAgrees(Between(Str("\\u{"), Regex(pat), Str("}")), c, pos, n);
  }

  /** A parser that reads the braced digits found by BracedDigits, checked and converted, agrees with ScanBraced. */
  lemma {:induction false} BracedReadAgrees(b: Parser<string>, c: Config, pos: nat, n: nat)
    requires pos + 4 + n <= |c.subject| && BracedDigits(c.subject[pos..]) == Some(n)
    requires b(c, pos) == Ok(c, pos + 4 + n, c.subject[pos + 3..pos + 3 + n])
    ensures Agrees(Checked(Select(b, BracedText))(c, pos), c, pos, ScanBraced(c.subject[pos..]))
  {
    ScanBracedFound(c.subject, pos, n);
    CheckedFound(b, BracedText, c, pos, 4 + n, c.subject[pos + 3..pos + 3 + n]);
    AgreesWithEqual(Checked(Select(b, BracedText))(c, pos), c, pos,
                    Defined(4 + n, BracedText(c.subject[pos + 3..pos + 3 + n])), ScanBraced(c.subject[pos..]));
  }

  lemma {:induction false} BracedAgreesMissing(pat: Pattern, c: Config, pos: nat)
    requires c.skip.None? && pos <= |c.subject|
    requires pos + 3 <= |c.subject| ==> MatchesHexRun(pat, c.subject[pos + 3..])
    requires BracedDigits(c.subject[pos..]).None?
    ensures Agrees(Checked(Select(Between(Str("\\u{"), Regex(pat), Str("}")), BracedText))(c, pos),
                   c, pos, ScanBraced(c.subject[pos..]))
  {
    ScanBracedAt(c.subject, pos);
    BracedMissingWith(pat, c, pos);
    CheckedMissing(Between(Str("\\u{"), Regex(pat), Str("}")), BracedText, c, pos);
  }

  /** The braced escape for any pattern that matches runs of hex digits. */
  lemma {:induction false} BracedAgreesWith(pat: Pattern, c: Config, pos: nat)
    requires c.skip.None? && pos <= |c.subject|
    requires pos + 3 <= |c.subject| ==> MatchesHexRun(pat, c.subject[pos + 3..])
    ensures Agrees(Checked(Select(Between(Str("\\u{"), Regex(pat), Str("}")), BracedText))(c, pos),
                   c, pos, ScanBraced(c.subject[pos..]))
  {
    var d := BracedDigits(c.subject[pos..]);
    if d.Some? {
      BracedAgreesFound(pat, c, pos, d.value);
    } else {
      BracedAgreesMissing(pat, c, pos);
    }
  }

  lemma {:induction false} BracedAgrees(c: Config, pos: nat)
    requires c.skip.None? && pos <= |c.subject|
    ensures Agrees(BracedAlt()(c, pos), c, pos, ScanBraced(c.subject[pos..]))
  {
    if pos + 3 <= |c.subject| {
      PlusRun(IsHexDigit, c.subject[pos + 3..]);
    }
    BracedAgreesWith(HexRunPattern, c, pos);
  }




  // ----- Composed fragment parsers -----

  lemma {:induction false} PrependAgrees(flag: bool, p: Parser<string>, rest: Parser<string>, c: Config, pos: nat,
                      a: Option<Token>, b: Option<Token>)
    requires Agrees(p(c, pos), c, pos, a) && Agrees(rest(c, pos), c, pos, b)
    ensures Agrees(Prepend(flag, p, rest)(c, pos), c, pos, Prefer(flag, a, b))
  {
    if flag {
      ChoiceSpec(p, rest, c, pos);
    }
  }

  lemma {:induction false} ChoiceAgrees(p: Parser<string>, q: Parser<string>, c: Config, pos: nat, a: Option<Token>, b: Option<Token>)
    requires Agrees(p(c, pos), c, pos, a) && Agrees(q(c, pos), c, pos, b)
    ensures Agrees(Choice(p, q)(c, pos), c, pos, FirstOf(a, b))
  {
    ChoiceSpec(p, q, c, pos);
  }

  /** The chain of flagged alternatives reads the chain of their fragments. */
  lemma {:induction false} NumericChain(flags: nat, long: Parser<string>, braced: Parser<string>, unicode: Parser<string>,
                     hexPair: Parser<string>, unicodex: Parser<string>, octal: Parser<string>,
                     base: Parser<string>, c: Config, pos: nat,
                     tl: Option<Token>, tb: Option<Token>, tu: Option<Token>,
                     th: Option<Token>, tx: Option<Token>, to: Option<Token>, b: Option<Token>)
    requires Agrees(long(c, pos), c, pos, tl)
    requires Agrees(braced(c, pos), c, pos, tb)
    requires Agrees(unicode(c, pos), c, pos, tu)
    requires Agrees(hexPair(c, pos), c, pos, th)
    requires Agrees(unicodex(c, pos), c, pos, tx)
    requires Agrees(octal(c, pos), c, pos, to)
    requires Agrees(base(c, pos), c, pos, b)
    ensures Agrees(NumericOf(flags, long, braced, unicode, hexPair, unicodex, octal, base)(c, pos), c, pos,
                   Prefer(HasFlag(flags, CSharpStyleCodePoint), tl,
                   Prefer(HasFlag(flags, JSStyleCodePoint), tb,
                   Prefer(HasFlag(flags, Unicode), tu,
                   Prefer(HasFlag(flags, Hexadecimal), th,
                   Prefer(HasFlag(flags, Unicodex), tx,
                   Prefer(HasFlag(flags, Octal), to, b)))))))
  {
    PrependAgrees(HasFlag(flags, Octal), octal, base, c, pos, to, b);
    PrependAgrees(HasFlag(flags, Unicodex), unicodex, Prepend(HasFlag(flags, Octal), octal, base), c, pos,
                  tx, Prefer(HasFlag(flags, Octal), to, b));
    NumericChainOuter(flags, long, braced, unicode, hexPair,
                      Prepend(HasFlag(flags, Unicodex), unicodex, Prepend(HasFlag(flags, Octal), octal, base)),
                      c, pos, tl, tb, tu, th, Prefer(HasFlag(flags, Unicodex), tx, Prefer(HasFlag(flags, Octal), to, b)));
  }

  lemma {:induction false} NumericChainOuter(flags: nat, long: Parser<string>, braced: Parser<string>,
                                            unicode: Parser<string>, hexPair: Parser<string>, rest: Parser<string>,
                                            c: Config, pos: nat, tl: Option<Token>, tb: Option<Token>,
                                            tu: Option<Token>, th: Option<Token>, r: Option<Token>)
    requires Agrees(long(c, pos), c, pos, tl)
    requires Agrees(braced(c, pos), c, pos, tb)
    requires Agrees(unicode(c, pos), c, pos, tu)
    requires Agrees(hexPair(c, pos), c, pos, th)
    requires Agrees(rest(c, pos), c, pos, r)
    ensures Agrees(Prepend(HasFlag(flags, CSharpStyleCodePoint), long,
                   Prepend(HasFlag(flags, JSStyleCodePoint), braced,
                   Prepend(HasFlag(flags, Unicode), unicode,
                   Prepend(HasFlag(flags, Hexadecimal), hexPair, rest))))(c, pos), c, pos,
                   Prefer(HasFlag(flags, CSharpStyleCodePoint), tl,
                   Prefer(HasFlag(flags, JSStyleCodePoint), tb,
                   Prefer(HasFlag(flags, Unicode), tu,
                   Prefer(HasFlag(flags, Hexadecimal), th, r)))))
  {
    PrependAgrees(HasFlag(flags, Hexadecimal), hexPair, rest, c, pos, th, r);
    PrependAgrees(HasFlag(flags, Unicode), unicode, Prepend(HasFlag(flags, Hexadecimal), hexPair, rest), c, pos,
                  tu, Prefer(HasFlag(flags, Hexadecimal), th, r));
    NumericChainTop(flags, long, braced,
                    Prepend(HasFlag(flags, Unicode), unicode, Prepend(HasFlag(flags, Hexadecimal), hexPair, rest)),
                    c, pos, tl, tb, Prefer(HasFlag(flags, Unicode), tu, Prefer(HasFlag(flags, Hexadecimal), th, r)));
  }

  lemma {:induction false} NumericChainTop(flags: nat, long: Parser<string>, braced: Parser<string>, rest: Parser<string>,
                                          c: Config, pos: nat, tl: Option<Token>, tb: Option<Token>, r: Option<Token>)
    requires Agrees(long(c, pos), c, pos, tl)
    requires Agrees(braced(c, pos), c, pos, tb)
    requires Agrees(rest(c, pos), c, pos, r)
    ensures Agrees(Prepend(HasFlag(flags, CSharpStyleCodePoint), long,
                   Prepend(HasFlag(flags, JSStyleCodePoint), braced, rest))(c, pos), c, pos,
                   Prefer(HasFlag(flags, CSharpStyleCodePoint), tl, Prefer(HasFlag(flags, JSStyleCodePoint), tb, r)))
  {
    PrependAgrees(HasFlag(flags, JSStyleCodePoint), braced, rest, c, pos, tb, r);
    PrependAgrees(HasFlag(flags, CSharpStyleCodePoint), long, Prepend(HasFlag(flags, JSStyleCodePoint), braced, rest), c, pos,
                  tl, Prefer(HasFlag(flags, JSStyleCodePoint), tb, r));
  }

  /** The numeric escapes in front of base read what ScanNumeric describes in front of base's fragment. */
  lemma {:induction false} NumericAgrees(flags: nat, base: Parser<string>, c: Config, pos: nat, b: Option<Token>)
    requires c.skip.None? && pos <= |c.subject|
    requires Agrees(base(c, pos), c, pos, b)
    ensures Agrees(Numeric(flags, base)(c, pos), c, pos, ScanNumeric(flags, c.subject[pos..], b))
  {
    OctalAgrees(c, pos);
    UnicodexAgrees(c, pos);
    HexPairAgrees(c, pos);
    UnicodeAgrees(c, pos);
    BracedAgrees(c, pos);
    LongAgrees(c, pos);
    NumericChain(flags, LongAlt(), BracedAlt(), UnicodeAlt(), HexPairAlt(), UnicodexAlt(), OctalAlt(), base, c, pos,
                 ScanLong(c.subject[pos..]), ScanBraced(c.subject[pos..]), ScanUnicode(c.subject[pos..]),
                 ScanHexPair(c.subject[pos..]), ScanUnicodex(c.subject[pos..]), ScanOctal(c.subject[pos..]), b);
  }

  /** The fragment parser in the intended order reads what ScanLetter describes. */
  lemma {:induction false} LetterAgrees(quote: char, esc: char -> Option<string>, flags: nat, c: Config, pos: nat)
    requires c.skip.None? && pos <= |c.subject|
    ensures Agrees(Letter(quote, esc, flags)(c, pos), c, pos, LetterScanner(quote, esc, flags)(c.subject[pos..]))
  {
    LetterAgreesScan(quote, esc, flags, c, pos);
    ScannersApply(quote, esc, flags, c.subject[pos..]);
    AgreesWithEqual(Letter(quote, esc, flags)(c, pos), c, pos, ScanLetter(quote, esc, flags, c.subject[pos..]),
                    LetterScanner(quote, esc, flags)(c.subject[pos..]));
  }

  /** The scanner functions apply the character-level scanners. */
  lemma {:induction false} ScannersApply(quote: char, esc: char -> Option<string>, flags: nat, t: string)
    ensures ScanLetter(quote, esc, flags, t) == LetterScanner(quote, esc, flags)(t)
    ensures ScanLetterAsWritten(quote, esc, flags, t) == LetterScannerAsWritten(quote, esc, flags)(t)
  {
  }

  lemma {:induction false} LetterAgreesScan(quote: char, esc: char -> Option<string>, flags: nat, c: Config, pos: nat)
    requires c.skip.None? && pos <= |c.subject|
    ensures Agrees(Letter(quote, esc, flags)(c, pos), c, pos, ScanLetter(quote, esc, flags, c.subject[pos..]))
  {
    NumericOverTableAgrees(quote, esc, flags, c, pos);
  }

  lemma {:induction false} NumericOverTableAgrees(quote: char, esc: char -> Option<string>, flags: nat, c: Config, pos: nat)
    requires c.skip.None? && pos <= |c.subject|
    ensures Agrees(Numeric(flags, Choice(EscapeAlt(esc), PlainAlt(quote, HasFlag(flags, IncludeNewline))))(c, pos), c, pos,
                   ScanNumeric(flags, c.subject[pos..], FirstOf(ScanEscape(esc, c.subject[pos..]),
                                                              ScanPlain(quote, HasFlag(flags, IncludeNewline), c.subject[pos..]))))
  {
    TableOrPlainAgrees(quote, esc, HasFlag(flags, IncludeNewline), c, pos);
    NumericAgrees(flags, Choice(EscapeAlt(esc), PlainAlt(quote, HasFlag(flags, IncludeNewline))), c, pos,
                  FirstOf(ScanEscape(esc, c.subject[pos..]), ScanPlain(quote, HasFlag(flags, IncludeNewline), c.subject[pos..])));
  }

  /** The escape table or a plain run reads the first of their fragments. */
  lemma {:induction false} TableOrPlainAgrees(quote: char, esc: char -> Option<string>, newline: bool, c: Config, pos: nat)
    requires c.skip.None? && pos <= |c.subject|
    ensures Agrees(Choice(EscapeAlt(esc), PlainAlt(quote, newline))(c, pos), c, pos,
                   FirstOf(ScanEscape(esc, c.subject[pos..]), ScanPlain(quote, newline, c.subject[pos..])))
  {
    EscapeAgrees(esc, c, pos);
    PlainAgrees(quote, newline, c, pos);
    ChoiceAgrees(EscapeAlt(esc), PlainAlt(quote, newline), c, pos, ScanEscape(esc, c.subject[pos..]),
                 ScanPlain(quote, newline, c.subject[pos..]));
  }

  /** The fragment parser as the source builds it reads what ScanLetterAsWritten describes. */
  lemma {:induction false} LetterAsWrittenAgrees(quote: char, esc: char -> Option<string>, flags: nat, c: Config, pos: nat)
    requires c.skip.None? && pos <= |c.subject|
    ensures Agrees(LetterAsWritten(quote, esc, flags)(c, pos), c, pos,
                   LetterScannerAsWritten(quote, esc, flags)(c.subject[pos..]))
  {
    LetterAsWrittenAgreesScan(quote, esc, flags, c, pos);
    ScannersApply(quote, esc, flags, c.subject[pos..]);
    AgreesWithEqual(LetterAsWritten(quote, esc, flags)(c, pos), c, pos,
                    ScanLetterAsWritten(quote, esc, flags, c.subject[pos..]),
                    LetterScannerAsWritten(quote, esc, flags)(c.subject[pos..]));
  }

  lemma {:induction false} LetterAsWrittenAgreesScan(quote: char, esc: char -> Option<string>, flags: nat, c: Config, pos: nat)
    requires c.skip.None? && pos <= |c.subject|
    ensures Agrees(LetterAsWritten(quote, esc, flags)(c, pos), c, pos,
                   ScanLetterAsWritten(quote, esc, flags, c.subject[pos..]))
  {
    NumericOverPlainAgrees(quote, flags, c, pos);
    EscapeAgrees(esc, c, pos);
    ChoiceAgrees(EscapeAlt(esc), Numeric(flags, PlainAlt(quote, HasFlag(flags, IncludeNewline))), c, pos,
                 ScanEscape(esc, c.subject[pos..]),
                 ScanNumeric(flags, c.subject[pos..], ScanPlain(quote, HasFlag(flags, IncludeNewline), c.subject[pos..])));
  }

  lemma {:induction false} NumericOverPlainAgrees(quote: char, flags: nat, c: Config, pos: nat)
    requires c.skip.None? && pos <= |c.subject|
    ensures Agrees(Numeric(flags, PlainAlt(quote, HasFlag(flags, IncludeNewline)))(c, pos), c, pos,
                   ScanNumeric(flags, c.subject[pos..], ScanPlain(quote, HasFlag(flags, IncludeNewline), c.subject[pos..])))
  {
    PlainAgrees(quote, HasFlag(flags, IncludeNewline), c, pos);
    NumericAgrees(flags, PlainAlt(quote, HasFlag(flags, IncludeNewline)), c, pos,
                  ScanPlain(quote, HasFlag(flags, IncludeNewline), c.subject[pos..]));
  }

  /**
   * A fragment parser that a scanner describes: it advances, the scanner
   * yields fragments, and at every position of every subject without a skip
   * pattern the two agree.
   */
  ghost predicate Describes(letter: Parser<string>, scan: string -> Option<Token>)
  {
    Advancing(letter) && Tokenizes(scan) &&
    forall c: Config, k: nat | c.skip.None? && k <= |c.subject| :: Agrees(letter(c, k), c, k, scan(c.subject[k..]))
  }

  /** The fragment parser is described by its scanner. */
  lemma {:induction false} LetterDescribed(quote: char, esc: char -> Option<string>, flags: nat)
    ensures Describes(Letter(quote, esc, flags), LetterScanner(quote, esc, flags))
  {
    LetterAdvances(quote, esc, flags);
    ScannersTokenize(quote, esc, flags);
    LetterAgreesEverywhere(quote, esc, flags);
  }

  lemma {:induction false} LetterAgreesEverywhere(quote: char, esc: char -> Option<string>, flags: nat)
    ensures forall c: Config, k: nat | c.skip.None? && k <= |c.subject| ::
              Agrees(Letter(quote, esc, flags)(c, k), c, k, LetterScanner(quote, esc, flags)(c.subject[k..]))
  {
    forall c: Config, k: nat | c.skip.None? && k <= |c.subject|
      ensures Agrees(Letter(quote, esc, flags)(c, k), c, k, LetterScanner(quote, esc, flags)(c.subject[k..]))
    {
      LetterAgrees(quote, esc, flags, c, k);
    }
  }

  /** So is the fragment parser as the source builds it. */
  lemma {:induction false} LetterAsWrittenDescribed(quote: char, esc: char -> Option<string>, flags: nat)
    ensures Describes(LetterAsWritten(quote, esc, flags), LetterScannerAsWritten(quote, esc, flags))
  {
    LetterAsWrittenAdvances(quote, esc, flags);
    ScannersTokenize(quote, esc, flags);
    LetterAsWrittenAgreesEverywhere(quote, esc, flags);
  }

  lemma {:induction false} LetterAsWrittenAgreesEverywhere(quote: char, esc: char -> Option<string>, flags: nat)
    ensures forall c: Config, k: nat | c.skip.None? && k <= |c.subject| ::
              Agrees(LetterAsWritten(quote, esc, flags)(c, k), c, k, LetterScannerAsWritten(quote, esc, flags)(c.subject[k..]))
  {
    forall c: Config, k: nat | c.skip.None? && k <= |c.subject|
      ensures Agrees(LetterAsWritten(quote, esc, flags)(c, k), c, k, LetterScannerAsWritten(quote, esc, flags)(c.subject[k..]))
    {
      LetterAsWrittenAgrees(quote, esc, flags, c, k);
    }
  }

  // ----- The repetition and the whole literal -----

  /** A link of fragment v from pos to n, after an empty delimiter. */
  lemma {:induction false} ChainLink(p: Parser<string>, d: Parser<string>, c: Config, pos: nat, n: nat, v: string)
    requires Repeatable(p, d)
    requires d(c, pos) == Ok(c, pos, "") && p(c, pos) == Ok(c, n, v)
    ensures Chain(p, d, c, pos) == [("", v)] + Chain(p, d, c, n)
    ensures ChainEnd(p, d, c, pos) == ChainEnd(p, d, c, n)
  {
    ChainStep(p, d, c, pos);
  }

  /** The chain ends at pos when no fragment follows the empty delimiter there. */
  lemma {:induction false} ChainStops(p: Parser<string>, d: Parser<string>, c: Config, pos: nat)
    requires Repeatable(p, d)
    requires d(c, pos) == Ok(c, pos, "") && p(c, pos).Err?
    ensures Chain(p, d, c, pos) == [] && ChainEnd(p, d, c, pos) == pos
  {
    ChainStep(p, d, c, pos);
  }

  /** Folding a link into a concatenation appends its text. */
  lemma {:induction false} ConcatLink(acc: string, v: string, links: seq<(string, string)>)
    ensures FoldLeft(Skipping(Concat), acc, [("", v)] + links) == FoldLeft(Skipping(Concat), acc + v, links)
  {
    assert ([("", v)] + links)[1..] == links;
    assert Skipping(Concat)(acc, "", v) == Concat(acc, v);
  }

  /**
   * A chain of fragments after pos, each read by p where scan describes it
   * and each delimiter matching the empty text, ends where ScanAll ends and
   * concatenates to ScanAll's text.
   */
  lemma {:induction false} ChainReads(p: Parser<string>, d: Parser<string>, scan: string -> Option<Token>,
                                      c: Config, pos: nat, acc: string)
    requires Repeatable(p, d) && Tokenizes(scan)
    requires pos <= |c.subject|
    requires forall k :: pos <= k <= |c.subject| ==> d(c, k) == Ok(c, k, "")
    requires forall k {:trigger p(c, k)} :: pos <= k <= |c.subject| ==> Agrees(p(c, k), c, k, scan(c.subject[k..]))
    ensures ChainEnd(p, d, c, pos) == pos + ScanAll(scan, c.subject[pos..]).length
    ensures FoldLeft(Skipping(Concat), acc, Chain(p, d, c, pos)) == acc + ScanAll(scan, c.subject[pos..]).text
    decreases |c.subject| - pos
  {
    assert Agrees(p(c, pos), c, pos, scan(c.subject[pos..]));
    match scan(c.subject[pos..])
    case None =>
      ChainStops(p, d, c, pos);
      assert acc + "" == acc;
    case Some(tok) =>
      ScanAllAt(scan, c.subject, pos, tok);
      var next: nat, acc' := pos + tok.length, acc + tok.text;
      ChainReads(p, d, scan, c, next, acc');
      ChainReadsLink(p, d, scan, c, pos, acc, tok, next, acc');
  }

  /** One step of ChainReads: a fragment at pos, then a chain that reads the rest from next. */
  lemma {:induction false} ChainReadsLink(p: Parser<string>, d: Parser<string>, scan: string -> Option<Token>,
                       c: Config, pos: nat, acc: string, tok: Token, next: nat, acc': string)
    requires Repeatable(p, d) && Tokenizes(scan)
    requires pos <= |c.subject| && scan(c.subject[pos..]) == Some(tok)
    requires d(c, pos) == Ok(c, pos, "") && Agrees(p(c, pos), c, pos, scan(c.subject[pos..]))
    requires next == pos + tok.length && acc' == acc + tok.text && next <= |c.subject|
    requires ChainEnd(p, d, c, next) == next + ScanAll(scan, c.subject[next..]).length
    requires FoldLeft(Skipping(Concat), acc', Chain(p, d, c, next)) == acc' + ScanAll(scan, c.subject[next..]).text
    ensures ChainEnd(p, d, c, pos) == pos + ScanAll(scan, c.subject[pos..]).length
    ensures FoldLeft(Skipping(Concat), acc, Chain(p, d, c, pos)) == acc + ScanAll(scan, c.subject[pos..]).text
  {
    ChainEndLink(p, d, scan, c, pos, tok);
    ChainTextLink(p, d, scan, c, pos, acc, tok);
  }

  /** The end half of ChainReadsLink. */
  lemma {:induction false} ChainEndLink(p: Parser<string>, d: Parser<string>, scan: string -> Option<Token>,
                                       c: Config, pos: nat, tok: Token)
    requires Repeatable(p, d) && Tokenizes(scan)
    requires pos <= |c.subject| && scan(c.subject[pos..]) == Some(tok)
    requires d(c, pos) == Ok(c, pos, "") && p(c, pos) == Ok(c, pos + tok.length, tok.text)
    requires ChainEnd(p, d, c, pos + tok.length) ==
             pos + tok.length + ScanAll(scan, c.subject[pos + tok.length..]).length
    ensures ChainEnd(p, d, c, pos) == pos + ScanAll(scan, c.subject[pos..]).length
  {
    ScanAllLengthAt(scan, c.subject, pos, tok);
    ChainEndStep(p, d, c, pos, pos + tok.length, tok.text);
  }

  /** The text half of ChainReadsLink. */
  lemma {:induction false} ChainTextLink(p: Parser<string>, d: Parser<string>, scan: string -> Option<Token>,
                                        c: Config, pos: nat, acc: string, tok: Token)
    requires Repeatable(p, d) && Tokenizes(scan)
    requires pos <= |c.subject| && scan(c.subject[pos..]) == Some(tok)
    requires d(c, pos) == Ok(c, pos, "") && p(c, pos) == Ok(c, pos + tok.length, tok.text)
    requires FoldLeft(Skipping(Concat), acc + tok.text, Chain(p, d, c, pos + tok.length)) ==
             acc + tok.text + ScanAll(scan, c.subject[pos + tok.length..]).text
    ensures FoldLeft(Skipping(Concat), acc, Chain(p, d, c, pos)) == acc + ScanAll(scan, c.subject[pos..]).text
  {
    var links := Chain(p, d, c, pos + tok.length);
    var rest := ScanAll(scan, c.subject[pos + tok.length..]).text;
    calc {
      FoldLeft(Skipping(Concat), acc, Chain(p, d, c, pos));
      { ChainSeqStep(p, d, c, pos, pos + tok.length, tok.text); }
      FoldLeft(Skipping(Concat), acc, [("", tok.text)] + links);
      { FoldLink(acc, tok.text, links, rest); }
      acc + (tok.text + rest);
      { ScanAllTextAt(scan, c.subject, pos, tok); }
      acc + ScanAll(scan, c.subject[pos..]).text;
    }
  }

  /** The end of the chain after a link of fragment v from pos to n. */
  lemma {:induction false} ChainEndStep(p: Parser<string>, d: Parser<string>, c: Config, pos: nat, n: nat, v: string)
    requires Repeatable(p, d)
    requires d(c, pos) == Ok(c, pos, "") && p(c, pos) == Ok(c, n, v)
    ensures ChainEnd(p, d, c, pos) == ChainEnd(p, d, c, n)
  {
    ChainStep(p, d, c, pos);
  }

  /** The links of the chain after a link of fragment v from pos to n. */
  lemma {:induction false} ChainSeqStep(p: Parser<string>, d: Parser<string>, c: Config, pos: nat, n: nat, v: string)
    requires Repeatable(p, d)
    requires d(c, pos) == Ok(c, pos, "") && p(c, pos) == Ok(c, n, v)
    ensures Chain(p, d, c, pos) == [("", v)] + Chain(p, d, c, n)
  {
    ChainStep(p, d, c, pos);
  }

  /** The length half of ScanAllAt. */
  lemma {:induction false} ScanAllLengthAt(scan: string -> Option<Token>, s: string, pos: nat, tok: Token)
    requires Tokenizes(scan) && pos <= |s| && scan(s[pos..]) == Some(tok)
    ensures pos + tok.length <= |s|
    ensures ScanAll(scan, s[pos..]).length == tok.length + ScanAll(scan, s[pos + tok.length..]).length
  {
    ScanAllAt(scan, s, pos, tok);
  }

  /** The text half of ScanAllAt. */
  lemma {:induction false} ScanAllTextAt(scan: string -> Option<Token>, s: string, pos: nat, tok: Token)
    requires Tokenizes(scan) && pos <= |s| && scan(s[pos..]) == Some(tok)
    ensures pos + tok.length <= |s|
    ensures ScanAll(scan, s[pos..]).text == tok.text + ScanAll(scan, s[pos + tok.length..]).text
  {
    ScanAllAt(scan, s, pos, tok);
  }

  /** Folding a first link into a concatenation that reads the rest. */
  lemma {:induction false} FoldLink(acc: string, v: string, links: seq<(string, string)>, rest: string)
    requires FoldLeft(Skipping(Concat), acc + v, links) == acc + v + rest
    ensures FoldLeft(Skipping(Concat), acc, [("", v)] + links) == acc + (v + rest)
  {
    ConcatLink(acc, v, links);
    assert acc + v + rest == acc + (v + rest);
  }

  /** ScanAllStep stated on positions of a subject. */
  lemma {:induction false} ScanAllAt(scan: string -> Option<Token>, s: string, pos: nat, tok: Token)
    requires Tokenizes(scan) && pos <= |s| && scan(s[pos..]) == Some(tok)
    ensures pos + tok.length <= |s|
    ensures ScanAll(scan, s[pos..]) == Token(tok.length + ScanAll(scan, s[pos + tok.length..]).length,
                                             tok.text + ScanAll(scan, s[pos + tok.length..]).text)
  {
    ScanAllStep(scan, s[pos..], tok);
    assert s[pos..][tok.length..] == s[pos + tok.length..];
  }

  /** Without a skip pattern, the empty literal matches everywhere and consumes nothing. */
  lemma {:induction false} EmptyEverywhere(c: Config, pos: nat)
    requires c.skip.None?
    ensures forall k :: pos <= k <= |c.subject| ==> Str("")(c, k) == Ok(c, k, "")
  {
    forall k | pos <= k <= |c.subject| ensures Str("")(c, k) == Ok(c, k, "") {
      EmptyStrMatches(c, k);
    }
  }

  /** Delimit after a first fragment v that ends at next. */
  lemma {:induction false} DelimitFirst(p: Parser<string>, d: Parser<string>, c: Config, pos: nat, next: nat, v: string)
    requires Repeatable(p, d) && p(c, pos) == Ok(c, next, v)
    ensures Delimit(p, d, Skipping(Concat))(c, pos) ==
            Ok(c, ChainEnd(p, d, c, next), FoldLeft(Skipping(Concat), v, Chain(p, d, c, next)))
  {
    DelimitIsFoldLeft(p, d, Skipping(Concat), c, pos);
  }

  /**
   * Delimit of a fragment parser over empty delimiters, from a position
   * where a first fragment is read: what the chain from pos reads.
   */
  lemma {:induction false} DelimitReads(p: Parser<string>, d: Parser<string>, scan: string -> Option<Token>,
                     c: Config, pos: nat, tok: Token)
    requires Repeatable(p, d) && Tokenizes(scan)
    requires pos <= |c.subject| && scan(c.subject[pos..]) == Some(tok)
    requires forall k :: pos <= k <= |c.subject| ==> d(c, k) == Ok(c, k, "")
    requires forall k {:trigger p(c, k)} :: pos <= k <= |c.subject| ==> Agrees(p(c, k), c, k, scan(c.subject[k..]))
    ensures Delimit(p, d, Skipping(Concat))(c, pos) ==
            Ok(c, pos + ScanAll(scan, c.subject[pos..]).length, ScanAll(scan, c.subject[pos..]).text)
  {
    var next := pos + tok.length;
    assert p(c, pos) == Ok(c, next, tok.text) by {
      assert Agrees(p(c, pos), c, pos, scan(c.subject[pos..]));
    }
    calc {
      Delimit(p, d, Skipping(Concat))(c, pos);
      { DelimitFirst(p, d, c, pos, next, tok.text); }
      Ok(c, ChainEnd(p, d, c, next), FoldLeft(Skipping(Concat), tok.text, Chain(p, d, c, next)));
      { AfterFirstReads(p, d, scan, c, pos, tok, next); }
      Ok(c, pos + ScanAll(scan, c.subject[pos..]).length, ScanAll(scan, c.subject[pos..]).text);
    }
  }

  /** After the first fragment, the chain ends where ScanAll ends and the texts concatenate to its text. */
  lemma {:induction false} AfterFirstReads(p: Parser<string>, d: Parser<string>, scan: string -> Option<Token>,
                                          c: Config, pos: nat, tok: Token, next: nat)
    requires Repeatable(p, d) && Tokenizes(scan)
    requires pos <= |c.subject| && scan(c.subject[pos..]) == Some(tok)
    requires forall k :: pos <= k <= |c.subject| ==> d(c, k) == Ok(c, k, "")
    requires forall k {:trigger p(c, k)} :: pos <= k <= |c.subject| ==> Agrees(p(c, k), c, k, scan(c.subject[k..]))
    requires next == pos + tok.length && p(c, pos) == Ok(c, next, tok.text)
    ensures ChainEnd(p, d, c, next) == pos + ScanAll(scan, c.subject[pos..]).length
    ensures FoldLeft(Skipping(Concat), tok.text, Chain(p, d, c, next)) == ScanAll(scan, c.subject[pos..]).text
    ensures Ok(c, ChainEnd(p, d, c, next), FoldLeft(Skipping(Concat), tok.text, Chain(p, d, c, next))) ==
            Ok(c, pos + ScanAll(scan, c.subject[pos..]).length, ScanAll(scan, c.subject[pos..]).text)
  {
    assert d(c, pos) == Ok(c, pos, "");
    ChainReads(p, d, scan, c, pos, "");
    ChainLink(p, d, c, pos, next, tok.text);
    ConcatLink("", tok.text, Chain(p, d, c, next));
    assert "" + tok.text == tok.text;
  }

  /** OneOrMore of a fragment parser, from a position where a first fragment is read. */
  lemma {:induction false} OneOrMoreReads(p: Parser<string>, scan: string -> Option<Token>, c: Config, pos: nat, tok: Token)
    requires Advancing(p) && Tokenizes(scan)
    requires c.skip.None? && pos <= |c.subject| && scan(c.subject[pos..]) == Some(tok)
    requires forall k {:trigger p(c, k)} :: pos <= k <= |c.subject| ==> Agrees(p(c, k), c, k, scan(c.subject[k..]))
    ensures OneOrMore(p, Concat)(c, pos) ==
            Ok(c, pos + ScanAll(scan, c.subject[pos..]).length, ScanAll(scan, c.subject[pos..]).text)
  {
    StrLiteralKeeps("");
    EmptyEverywhere(c, pos);
    DelimitReads(p, Str(""), scan, c, pos, tok);
  }

  /** ZeroOrMore of a fragment parser reads every fragment ScanAll reads and concatenates their texts. */
  lemma {:induction false} ZeroOrMoreReads(p: Parser<string>, scan: string -> Option<Token>, c: Config, pos: nat)
    requires Advancing(p) && Tokenizes(scan)
    requires c.skip.None? && pos <= |c.subject|
    requires forall k {:trigger p(c, k)} :: pos <= k <= |c.subject| ==> Agrees(p(c, k), c, k, scan(c.subject[k..]))
    ensures ZeroOrMore(p, Concat, "")(c, pos) ==
            Ok(c, pos + ScanAll(scan, c.subject[pos..]).length, ScanAll(scan, c.subject[pos..]).text)
  {
    var t := c.subject[pos..];
    ZeroOrMoreSpec(p, Concat, "", c, pos);
    assert Agrees(p(c, pos), c, pos, scan(t));
    match scan(t)
    case None =>
    case Some(tok) =>
      OneOrMoreReads(p, scan, c, pos, tok);
  }

  /** The outcome of a literal parser that reads what tok describes, renaming any failure to message. */
  function LiteralOutcome(tok: Option<Token>, c: Config, pos: nat, message: string): Result<string>
  {
    if tok.None? then Err(message) else Ok(c, pos + tok.value.length, tok.value.text)
  }

  lemma {:induction false} LiteralFails(quote: char, body: Parser<string>, message: string, c: Config, pos: nat)
    requires Between(Str([quote]), body, Str([quote]))(c, pos).Err?
    ensures SelectError(Between(Str([quote]), body, Str([quote])), Rename(message))(c, pos) == Err(message)
  {
    SelectErrorSpec(Between(Str([quote]), body, Str([quote])), Rename(message), c, pos);
  }

  /** The quotes around the body: the literal is read when the body's fragments end right before a quote. */
  lemma {:induction false} QuotedBody(quote: char, body: Parser<string>, scan: string -> Option<Token>, c: Config, pos: nat)
    requires c.skip.None? && pos <= |c.subject|
    requires 0 < |c.subject[pos..]| && c.subject[pos] == quote
    requires body(c, pos + 1) ==
             Ok(c, pos + 1 + ScanAll(scan, c.subject[pos + 1..]).length, ScanAll(scan, c.subject[pos + 1..]).text)
    ensures Between(Str([quote]), body, Str([quote]))(c, pos) ==
            LiteralOutcome(ScanLiteral(quote, scan, c.subject[pos..]), c, pos, "")
            || (Between(Str([quote]), body, Str([quote]))(c, pos).Err? &&
                ScanLiteral(quote, scan, c.subject[pos..]).None?)
  {
    var t := c.subject[pos..];
    var b := ScanAll(scan, c.subject[pos + 1..]);
    assert c.subject[pos + 1..] == t[1..];
    StrNoSkip([quote], c, pos);
    OneCharPrefix([quote], t);
    var e := pos + 1 + b.length;
    BetweenSpec(Str([quote]), body, Str([quote]), c, pos);
    StrNoSkip([quote], c, e);
    OneCharPrefix([quote], c.subject[e..]);
    if e < |c.subject| {
      assert c.subject[e..][0] == t[1 + b.length];
    }
  }

  /**
   * Without a skip pattern, a literal parser whose fragment parser reads what
   * scan describes reads exactly what ScanLiteral describes, and fails with
   * its message otherwise.
   */
  lemma {:induction false} LiteralReads(quote: char, letter: Parser<string>, scan: string -> Option<Token>, message: string,
                     c: Config, pos: nat)
    requires Describes(letter, scan)
    requires c.skip.None? && pos <= |c.subject|
    ensures Literal(quote, letter, message)(c, pos) ==
            LiteralOutcome(ScanLiteral(quote, scan, c.subject[pos..]), c, pos, message)
  {
    var t := c.subject[pos..];
    var body := ZeroOrMore(letter, Concat, "");
    var between := Between(Str([quote]), body, Str([quote]));
    SelectErrorSpec(between, Rename(message), c, pos);
    if 0 < |t| && t[0] == quote {
      ZeroOrMoreReads(letter, scan, c, pos + 1);
      QuotedBody(quote, body, scan, c, pos);
    } else {
      StrNoSkip([quote], c, pos);
      OneCharPrefix([quote], t);
      BetweenSpec(Str([quote]), body, Str([quote]), c, pos);
    }
  }

  /** LiteralReads from the start of the subject. */
  lemma {:induction false} LiteralReadsFromStart(quote: char, letter: Parser<string>, scan: string -> Option<Token>,
                              message: string, c: Config)
    requires Describes(letter, scan) && c.skip.None?
    ensures Literal(quote, letter, message)(c, 0) == LiteralOutcome(ScanLiteral(quote, scan, c.subject), c, 0, message)
  {
    assert c.subject[0..] == c.subject;
    LiteralReads(quote, letter, scan, message, c, 0);
  }

  /** A literal parser fails exactly where its scanner finds no literal, and then with its own message. */
  lemma {:induction false} LiteralFailure(quote: char, letter: Parser<string>, scan: string -> Option<Token>, message: string,
                       c: Config, pos: nat)
    requires Describes(letter, scan)
    requires c.skip.None? && pos <= |c.subject|
    ensures Literal(quote, letter, message)(c, pos).Err? ==> Literal(quote, letter, message)(c, pos) == Err(message)
    ensures Literal(quote, letter, message)(c, pos).Err? <==> ScanLiteral(quote, scan, c.subject[pos..]).None?
  {
    LiteralReads(quote, letter, scan, message, c, pos);
  }

  /** A literal parser fails where the subject does not continue with the quote. */
  lemma {:induction false} LiteralNoQuote(quote: char, letter: Parser<string>, scan: string -> Option<Token>, message: string,
                       c: Config, pos: nat)
    requires Describes(letter, scan)
    requires c.skip.None? && pos <= |c.subject|
    requires pos == |c.subject| || c.subject[pos] != quote
    ensures Literal(quote, letter, message)(c, pos) == Err(message)
  {
    LiteralReads(quote, letter, scan, message, c, pos);
  }

  /**
   * Without a skip pattern, the string literal parser reads exactly the
   * literal the reference scanner describes at pos (quote, fragments in the
   * intended order, quote), and otherwise fails with its message.
   */
  lemma {:induction false} StringLiteralReads(quote: char, esc: char -> Option<string>, flags: nat, message: string,
                           c: Config, pos: nat)
    requires c.skip.None? && pos <= |c.subject|
    ensures StringLiteral(quote, esc, flags, message)(c, pos) ==
            LiteralOutcome(ScanLiteral(quote, LetterScanner(quote, esc, flags), c.subject[pos..]), c, pos, message)
  {
    LetterDescribed(quote, esc, flags);
    LiteralReads(quote, Letter(quote, esc, flags), LetterScanner(quote, esc, flags), message, c, pos);
  }

  /** The same for the parser as the source writes it, which tries the escape table first. */
  lemma {:induction false} StringLiteralAsWrittenReads(quote: char, esc: char -> Option<string>, flags: nat, message: string,
                                    c: Config, pos: nat)
    requires c.skip.None? && pos <= |c.subject|
    ensures StringLiteralAsWritten(quote, esc, flags, message)(c, pos) ==
            LiteralOutcome(ScanLiteral(quote, LetterScannerAsWritten(quote, esc, flags), c.subject[pos..]), c, pos, message)
  {
    LetterAsWrittenDescribed(quote, esc, flags);
    LiteralReads(quote, LetterAsWritten(quote, esc, flags), LetterScannerAsWritten(quote, esc, flags), message, c, pos);
  }
}
