/**
 * What the string literal parsers of MonadPrimusParserOpt.cs promise as a
 * whole: a quoted, escaped text reads back as the text it encodes, with
 * every preset; a failure carries the literal's message; and the order in
 * which the source tries the escape table shadows octal escapes in the C
 * and JavaScript presets.
 */
module StringLiteralLaws {
  import opened Wrappers
  import opened ParserCore
  import opened Numerals
  import opened Escapes
  import opened StringScan
  import opened StringLiterals

  /** The subject holding text x written as a literal between quotes, followed by anything. */
  function Quoted(quote: char, x: string, rest: string): string
  {
    [quote] + Encode(quote, x) + [quote] + rest
  }

  /** From a position where the scanner reads a literal, the parser reads the same literal. */
  lemma {:induction false} ReadsLiteral(quote: char, esc: char -> Option<string>, flags: nat, message: string, c: Config, tok: Token)
    requires c.skip.None?
    requires ScanLiteral(quote, LetterScanner(quote, esc, flags), c.subject) == Some(tok)
    ensures StringLiteral(quote, esc, flags, message)(c, 0) == Ok(c, tok.length, tok.text)
  {
    LetterDescribed(quote, esc, flags);
    LiteralReadsFromStart(quote, Letter(quote, esc, flags), LetterScanner(quote, esc, flags), message, c);
  }

  lemma {:induction false} ReadsLiteralAsWritten(quote: char, esc: char -> Option<string>, flags: nat, message: string,
                              c: Config, tok: Token)
    requires c.skip.None?
    requires ScanLiteral(quote, LetterScannerAsWritten(quote, esc, flags), c.subject) == Some(tok)
    ensures StringLiteralAsWritten(quote, esc, flags, message)(c, 0) == Ok(c, tok.length, tok.text)
  {
    LetterAsWrittenDescribed(quote, esc, flags);
    LiteralReadsFromStart(quote, LetterAsWritten(quote, esc, flags), LetterScannerAsWritten(quote, esc, flags), message, c);
  }

  /** The reference scanner reads any encoded text back. */
  lemma {:induction false} ScannerRoundTrip(quote: char, esc: char -> Option<string>, flags: nat, x: string, rest: string, s: string)
    requires quote == '"' || quote == '\''
    requires KnowsQuoting(esc, quote)
    requires s == Quoted(quote, x, rest)
    ensures ScanLiteral(quote, LetterScanner(quote, esc, flags), s) == Some(Token(|Encode(quote, x)| + 2, x))
  {
    LettersDecode(quote, esc, flags);
    ScannersTokenize(quote, esc, flags);
    EncodedLiteral(LetterScanner(quote, esc, flags), quote, HasFlag(flags, IncludeNewline), x, rest);
  }

  lemma {:induction false} ScannerAsWrittenRoundTrip(quote: char, esc: char -> Option<string>, flags: nat, x: string, rest: string,
                                  s: string)
    requires quote == '"' || quote == '\''
    requires KnowsQuoting(esc, quote)
    requires s == Quoted(quote, x, rest)
    ensures ScanLiteral(quote, LetterScannerAsWritten(quote, esc, flags), s) == Some(Token(|Encode(quote, x)| + 2, x))
  {
    LettersDecode(quote, esc, flags);
    ScannersTokenize(quote, esc, flags);
    EncodedLiteral(LetterScannerAsWritten(quote, esc, flags), quote, HasFlag(flags, IncludeNewline), x, rest);
  }

  /** Where the scanner reads x back, so does the parser. */
  lemma {:induction false} ReadsEncoded(quote: char, esc: char -> Option<string>, flags: nat, message: string, x: string, c: Config)
    requires c.skip.None?
    requires ScanLiteral(quote, LetterScanner(quote, esc, flags), c.subject) == Some(Token(|Encode(quote, x)| + 2, x))
    ensures StringLiteral(quote, esc, flags, message)(c, 0) == Ok(c, |Encode(quote, x)| + 2, x)
  {
    ReadsLiteral(quote, esc, flags, message, c, Token(|Encode(quote, x)| + 2, x));
  }

  lemma {:induction false} ReadsEncodedAsWritten(quote: char, esc: char -> Option<string>, flags: nat, message: string,
                              x: string, c: Config)
    requires c.skip.None?
    requires ScanLiteral(quote, LetterScannerAsWritten(quote, esc, flags), c.subject) == Some(Token(|Encode(quote, x)| + 2, x))
    ensures StringLiteralAsWritten(quote, esc, flags, message)(c, 0) == Ok(c, |Encode(quote, x)| + 2, x)
  {
    ReadsLiteralAsWritten(quote, esc, flags, message, c, Token(|Encode(quote, x)| + 2, x));
  }

  /**
   * Any text, written between quotes with a backslash before each backslash
   * and quote and with newlines as \n, reads back as that text, and the
   * parser stops right after the closing quote. This holds for any flags and
   * any escape table that knows the backslash, the quote and n.
   */
  lemma {:induction false} StringLiteralRoundTrip(quote: char, esc: char -> Option<string>, flags: nat, message: string,
                               x: string, rest: string, c: Config)
    requires quote == '"' || quote == '\''
    requires KnowsQuoting(esc, quote)
    requires c.skip.None? && c.subject == Quoted(quote, x, rest)
    ensures StringLiteral(quote, esc, flags, message)(c, 0) == Ok(c, |Encode(quote, x)| + 2, x)
  {
    ScannerRoundTrip(quote, esc, flags, x, rest, c.subject);
    ReadsEncoded(quote, esc, flags, message, x, c);
  }

  /** The source's order of alternatives decodes encoded text just as well. */
  lemma {:induction false} StringLiteralAsWrittenRoundTrip(quote: char, esc: char -> Option<string>, flags: nat, message: string,
                                        x: string, rest: string, c: Config)
    requires quote == '"' || quote == '\''
    requires KnowsQuoting(esc, quote)
    requires c.skip.None? && c.subject == Quoted(quote, x, rest)
    ensures StringLiteralAsWritten(quote, esc, flags, message)(c, 0) == Ok(c, |Encode(quote, x)| + 2, x)
  {
    ScannerAsWrittenRoundTrip(quote, esc, flags, x, rest, c.subject);
    ReadsEncodedAsWritten(quote, esc, flags, message, x, c);
  }

  /** The same round trip for a double-quoted literal in the source's order. */
  lemma {:induction false} DoubleQuotedRoundTrip(esc: char -> Option<string>, flags: nat, message: string,
                                                 x: string, rest: string, c: Config)
    requires KnowsQuoting(esc, '"')
    requires c.skip.None? && c.subject == Quoted('"', x, rest)
    ensures DoubleQuoted(esc, flags, message)(c, 0) == Ok(c, |Encode('"', x)| + 2, x)
  {
    StringLiteralAsWrittenRoundTrip('"', esc, flags, message, x, rest, c);
  }

  /** Each of the four presets reads back any encoded text between double quotes. */
  lemma {:induction false} JSRoundTrip(message: string, x: string, rest: string, c: Config)
    requires c.skip.None? && c.subject == Quoted('"', x, rest)
    ensures JSStringLiteral(message)(c, 0) == Ok(c, |Encode('"', x)| + 2, x)
  {
    TablesKnowQuoting(JSEscapeChar, '"');
    DoubleQuotedRoundTrip(JSEscapeChar, JSFlags, message, x, rest, c);
  }

  lemma {:induction false} JavaRoundTrip(message: string, x: string, rest: string, c: Config)
    requires c.skip.None? && c.subject == Quoted('"', x, rest)
    ensures JavaStringLiteral(message)(c, 0) == Ok(c, |Encode('"', x)| + 2, x)
  {
    TablesKnowQuoting(JavaEscapeChar, '"');
    DoubleQuotedRoundTrip(JavaEscapeChar, JavaFlags, message, x, rest, c);
  }

  lemma {:induction false} CRoundTrip(message: string, x: string, rest: string, c: Config)
    requires c.skip.None? && c.subject == Quoted('"', x, rest)
    ensures CStringLiteral(message)(c, 0) == Ok(c, |Encode('"', x)| + 2, x)
  {
    TablesKnowQuoting(CEscapeChar, '"');
    DoubleQuotedRoundTrip(CEscapeChar, CFlags, message, x, rest, c);
  }

  lemma {:induction false} CSharpRoundTrip(message: string, x: string, rest: string, c: Config)
    requires c.skip.None? && c.subject == Quoted('"', x, rest)
    ensures CSharpStringLiteral(message)(c, 0) == Ok(c, |Encode('"', x)| + 2, x)
  {
    TablesKnowQuoting(CSharpEscapeChar, '"');
    DoubleQuotedRoundTrip(CSharpEscapeChar, CSharpFlags, message, x, rest, c);
  }

  /** A literal parser fails only with its own message, whatever went wrong inside it. */
  lemma {:induction false} FailureCarriesMessage(quote: char, esc: char -> Option<string>, flags: nat, message: string,
                              c: Config, pos: nat)
    requires c.skip.None? && pos <= |c.subject|
    ensures StringLiteralAsWritten(quote, esc, flags, message)(c, pos).Err? ==>
            StringLiteralAsWritten(quote, esc, flags, message)(c, pos) == Err(message)
    ensures StringLiteralAsWritten(quote, esc, flags, message)(c, pos).Err? <==>
            ScanLiteral(quote, LetterScannerAsWritten(quote, esc, flags), c.subject[pos..]).None?
  {
    var r := StringLiteralAsWritten(quote, esc, flags, message)(c, pos);
    var tok := ScanLiteral(quote, LetterScannerAsWritten(quote, esc, flags), c.subject[pos..]);
    StringLiteralAsWrittenReads(quote, esc, flags, message, c, pos);
    OutcomeFailure(r, tok, c, pos, message);
  }

  /** An outcome is a failure exactly when there is no token, and then it carries the message. */
  lemma {:induction false} OutcomeFailure(r: Result<string>, tok: Option<Token>, c: Config, pos: nat, message: string)
    requires r == LiteralOutcome(tok, c, pos, message)
    ensures r.Err? <==> tok.None?
    ensures r.Err? ==> r == Err(message)
  {
  }

  /** From a position where the scanner finds no literal, the parser fails with its message. */
  lemma {:induction false} FailsWithoutLiteral(quote: char, esc: char -> Option<string>, flags: nat, message: string, c: Config)
    requires c.skip.None?
    requires ScanLiteral(quote, LetterScannerAsWritten(quote, esc, flags), c.subject).None?
    ensures StringLiteralAsWritten(quote, esc, flags, message)(c, 0) == Err(message)
  {
    LetterAsWrittenDescribed(quote, esc, flags);
    LiteralReadsFromStart(quote, LetterAsWritten(quote, esc, flags), LetterScannerAsWritten(quote, esc, flags), message, c);
  }

  /** A literal that does not start with the quote fails. */
  lemma {:induction false} NoOpeningQuote(quote: char, esc: char -> Option<string>, flags: nat, message: string, c: Config, pos: nat)
    requires c.skip.None? && pos <= |c.subject|
    requires pos == |c.subject| || c.subject[pos] != quote
    ensures StringLiteralAsWritten(quote, esc, flags, message)(c, pos) == Err(message)
  {
    NoQuoteScan(quote, LetterScannerAsWritten(quote, esc, flags), c.subject, pos);
    StringLiteralAsWrittenReads(quote, esc, flags, message, c, pos);
  }

  /** The scanner finds no literal where the subject does not continue with the quote. */
  lemma {:induction false} NoQuoteScan(quote: char, scan: string -> Option<Token>, s: string, pos: nat)
    requires pos <= |s|
    requires pos == |s| || s[pos] != quote
    ensures ScanLiteral(quote, scan, s[pos..]).None?
  {
    assert pos < |s| ==> s[pos..][0] == s[pos];
  }

  /** A literal whose closing quote is missing fails: a subject made of the quote and plain characters. */
  lemma {:induction false} UnterminatedFails(quote: char, esc: char -> Option<string>, flags: nat, message: string,
                          body: string, c: Config)
    requires forall i :: 0 <= i < |body| ==> IsPlainChar(quote, HasFlag(flags, IncludeNewline), body[i])
    requires c.skip.None? && c.subject == [quote] + body
    ensures StringLiteralAsWritten(quote, esc, flags, message)(c, 0) == Err(message)
  {
    UnterminatedScan(quote, LetterScannerAsWritten(quote, esc, flags), HasFlag(flags, IncludeNewline), body, c.subject);
    FailsWithoutLiteral(quote, esc, flags, message, c);
  }

  /** Without a second quote in the subject there is no literal to scan. */
  lemma {:induction false} UnterminatedScan(quote: char, scan: string -> Option<Token>, newline: bool, body: string, s: string)
    requires forall i :: 0 <= i < |body| ==> IsPlainChar(quote, newline, body[i])
    requires s == [quote] + body
    ensures ScanLiteral(quote, scan, s).None?
  {
  }

  // ----- Octal escapes in the C and JavaScript presets -----

  /** The text `\012"` after the opening quote: an octal escape for a newline, then the closing quote. */
  const OctalNewline: string := "\"\\012\""

  /** The text that starts with the closing quote holds no fragment. */
  lemma {:induction false} ClosingQuoteEnds(quote: char, esc: char -> Option<string>, flags: nat)
    requires quote != '\\'
    ensures ScanLetter(quote, esc, flags, [quote]) == None
    ensures ScanLetterAsWritten(quote, esc, flags, [quote]) == None
  {
    PlainUnlessBackslash(quote, esc, flags, [quote]);
    PlainRun(quote, HasFlag(flags, IncludeNewline), [quote]);
  }

  /** Two plain characters followed by the quote are read as one plain fragment. */
  lemma {:induction false} PlainPairThenQuote(quote: char, esc: char -> Option<string>, flags: nat, a: char, b: char)
    requires a != '\\' && a != quote && a != '\n' && b != '\\' && b != quote && b != '\n'
    ensures ScanLetterAsWritten(quote, esc, flags, [a, b, quote]) == Some(Token(2, [a, b]))
  {
    var t := [a, b, quote];
    var nl := HasFlag(flags, IncludeNewline);
    PlainUnlessBackslash(quote, esc, flags, t);
    PlainRun(quote, nl, t);
    assert IsPlainChar(quote, nl, t[0]) && IsPlainChar(quote, nl, t[1]) && t[2] == quote;
    var n := ScanPlain(quote, nl, t).value.length;
    assert n != 1 && n != 3;
    assert t[..2] == [a, b];
  }

  /** A body of two fragments, after which no fragment follows. */
  lemma {:induction false} BodyOfTwo(scan: string -> Option<Token>, t: string, a: Token, b: Token)
    requires Tokenizes(scan) && scan(t) == Some(a)
    requires a.length <= |t| && scan(t[a.length..]) == Some(b)
    requires b.length <= |t[a.length..]| && scan(t[a.length..][b.length..]) == None
    ensures ScanAll(scan, t) == Token(a.length + b.length, a.text + b.text)
  {
    ScanAllStep(scan, t, a);
    ScanAllStep(scan, t[a.length..], b);
    assert b.text + "" == b.text;
  }

  /** A body of one fragment, after which no fragment follows. */
  lemma {:induction false} BodyOfOne(scan: string -> Option<Token>, t: string, a: Token)
    requires Tokenizes(scan) && scan(t) == Some(a)
    requires a.length <= |t| && scan(t[a.length..]) == None
    ensures ScanAll(scan, t) == a
  {
    ScanAllStep(scan, t, a);
    assert a.text + "" == a.text;
  }

  /** The literal around a body that ends right before a quote. */
  lemma {:induction false} LiteralAroundBody(quote: char, scan: string -> Option<Token>, s: string, body: Token)
    requires 0 < |s| && s[0] == quote && ScanAll(scan, s[1..]) == body
    requires 1 + body.length < |s| && s[1 + body.length] == quote
    ensures ScanLiteral(quote, scan, s) == Some(Token(body.length + 2, body.text))
  {
  }

  /** As written, the escape table answers `\0` first. */
  lemma {:induction false} AsWrittenReadsNul()
    ensures ScanLetterAsWritten('"', CEscapeChar, CFlags, "\\012\"") == Some(Token(2, "\0"))
  {
  }

  /** In the intended order, the octal escape `\012` is read as a newline. */
  lemma {:induction false} OctalReadsNewline()
    ensures ScanLetter('"', CEscapeChar, CFlags, "\\012\"") == Some(Token(4, "\n"))
  {
    var t := "\\012\"";
    assert BaseValue("012", 8) == 10 by {
      assert "012"[..2] == "01" && "01"[..1] == "0" && "0"[..0] == [];
    }
    assert t[1..4] == "012";
    assert ScanOctal(t) == Some(Token(4, "\n"));
  }

  /** As written, the C escape table reads `\0` before the octal escape is tried: `\012` is NUL, '1', '2'. */
  lemma {:induction false} CLiteralAsWrittenShadowsOctal()
    ensures ScanLiteral('"', LetterScannerAsWritten('"', CEscapeChar, CFlags), OctalNewline) ==
            Some(Token(6, "\0" + "12"))
  {
    var scan := LetterScannerAsWritten('"', CEscapeChar, CFlags);
    var s := OctalNewline;
    var t := s[1..];
    assert t == "\\012\"";
    assert t[2..] == ['1', '2', '"'] && t[2..][2..] == ['"'];
    assert scan(t) == Some(Token(2, "\0")) by { AsWrittenReadsNul(); }
    assert scan(t[2..]) == Some(Token(2, "12")) by { PlainPairThenQuote('"', CEscapeChar, CFlags, '1', '2'); }
    assert scan(t[2..][2..]) == None by { ClosingQuoteEnds('"', CEscapeChar, CFlags); }
    assert ScanAll(scan, t) == Token(4, "\0" + "12") by {
      ScannersTokenize('"', CEscapeChar, CFlags);
      BodyOfTwo(scan, t, Token(2, "\0"), Token(2, "12"));
    }
    LiteralAroundBody('"', scan, s, Token(4, "\0" + "12"));
  }

  /** In the intended order the octal escape wins: `\012` is a newline. */
  lemma {:induction false} CLiteralReadsOctal()
    ensures ScanLiteral('"', LetterScanner('"', CEscapeChar, CFlags), OctalNewline) == Some(Token(6, "\n"))
  {
    var scan := LetterScanner('"', CEscapeChar, CFlags);
    var s := OctalNewline;
    var t := s[1..];
    assert t == "\\012\"";
    assert t[4..] == ['"'];
    assert scan(t) == Some(Token(4, "\n")) by { OctalReadsNewline(); }
    assert scan(t[4..]) == None by { ClosingQuoteEnds('"', CEscapeChar, CFlags); }
    assert ScanAll(scan, t) == Token(4, "\n") by {
      ScannersTokenize('"', CEscapeChar, CFlags);
      BodyOfOne(scan, t, Token(4, "\n"));
    }
    LiteralAroundBody('"', scan, s, Token(4, "\n"));
  }

  /** The C preset, as the source writes it, turns `"\012"` into NUL, '1', '2'. */
  lemma {:induction false} CStringLiteralOctal(message: string, c: Config)
    requires c.skip.None? && c.subject == OctalNewline
    ensures CStringLiteral(message)(c, 0) == Ok(c, 6, "\0" + "12")
  {
    CLiteralAsWrittenShadowsOctal();
    ReadsLiteralAsWritten('"', CEscapeChar, CFlags, message, c, Token(6, "\0" + "12"));
  }

  /** The C preset with the octal escape tried first turns `"\012"` into a newline. */
  lemma {:induction false} CStringLiteralIntendedOctal(message: string, c: Config)
    requires c.skip.None? && c.subject == OctalNewline
    ensures CStringLiteralIntended(message)(c, 0) == Ok(c, 6, "\n")
  {
    CLiteralReadsOctal();
    ReadsLiteral('"', CEscapeChar, CFlags, message, c, Token(6, "\n"));
  }
}
