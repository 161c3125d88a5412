# MonadPrimus parser combinators, monads and samples: a Dafny model

MonadPrimus is a C# library of monads written in LINQ style: `Select`, `SelectMany` and the
three-argument `SelectMany` of query comprehensions. It also holds a parser-combinator library
built on those monads. This project models:

- **The parser core** (`MonadPrimusParser.cs`). A parser is a function from an environment
  (the subject text and an optional skip pattern) and a position to a result: a success that
  carries the environment, the new position and a value, or a failure that carries a message.
  The model covers:
  - the primitives: literal, case-insensitive literal, pattern and end of input;
  - the combinators: unit, Select, SelectMany, the comprehension form, SelectError and
    ChangeError, ordered Choice, Option, Lookahead and Not;
  - the repetitions: Delimit, DelimitRight, OneOrMore and ZeroOrMore;
  - the recursive grammars built with Letrec1, Letrec2 and Letrec3, whose delay parser
    fills a memo cell on first use (a Dafny class).
- **The ready-made parsers** (`MonadPrimusParserOpt.cs`):
  - the number literal, with optional octal and binary radixes;
  - the four escape-character tables;
  - the code-unit and code-point helpers;
  - the configurable string literal, with its numeric escapes and the JavaScript, Java, C and
    C# presets.
- **The monads of `MonadPrimus.cs`**: Identity, Maybe, Either, State, Reader, Writer and
  Continuation, each with its unit, map and binds, its specific operations and the three
  monad laws.
- **Three samples**:
  - the Hack assembler (`sample/HackAssembler.cs`): its symbol table class, the instruction
    tables and the two passes, as imperative methods proved against functional
    specifications;
  - the code generator of the Jack compiler (`sample/JackAnalyzer.cs`): its two-level symbol
    table with per-kind counters (a class over an array), the static label counter that every analyzer shares (an object passed to each), and the VM code
    of every expression and statement class;
  - the S-expression data of `sample/SExpression.cs` and their printed form.

Regular expressions are modelled by anchored matchers: a matcher is a function from a text to
the length of the match at its start. A pattern pairs the regular expression's text, which
default error messages quote, with its matcher. The matchers the library's own patterns need
(character-class runs, fixed and bounded repetitions, short sequences) are written out in
`Matchers.dfy`. The string literal and number literal parsers are each proved equal to an
independent character-level scanner. The scanners then carry the round trip: any text, quoted
and escaped, reads back as itself.

The model follows the code on these points, where a reader might expect otherwise:

- The number literal tries the octal radix before the binary radix
  (`MonadPrimusParserOpt.cs:128-136`).
- The string literal tries the escape-character table before the numeric escapes, because the
  table's alternative is prepended last (`MonadPrimusParserOpt.cs:334`).
- `\x` takes one to four hexadecimal digits in the C# preset, not a braced, variable-length
  form (`MonadPrimusParserOpt.cs:309-312`).
- The failure result of this revision carries no position.
- The two-argument `SelectError(message, position)` and `GetPosition`/`MatchIf` are called in
  `MonadPrimusParserOpt.cs` but not defined in the two parser files:
  - `GetPosition` is modelled as the parser that yields the position and consumes nothing;
  - `MatchIf` is modelled with the message the parser tests expect;
  - the position argument of `SelectError` is dropped.

## Model

| member | source | states |
|---|---|---|
| ParserCore.Run | MonadPrimusParser.cs:137-186 | a start position outside the subject is rejected, and exactly then; otherwise the result is the parser's, on the subject with the given skip pattern |
| ParserCore.SkipFrom | MonadPrimusParser.cs:188-202 | skipping never moves backwards or past the end; without a skip pattern, or where it does not match, the position is unchanged; otherwise it moves by the length of the match |
| ParserCore.StrSpec | MonadPrimusParser.cs:210-237 | a literal succeeds exactly when the text after skipping starts with it, then yields it and stands after it; otherwise it fails with its message |
| ParserCore.StrPresent | MonadPrimusParser.cs:210-237 | a literal present where skipping stops is read and yielded |
| ParserCore.StrAbsent | MonadPrimusParser.cs:210-237 | a literal absent where skipping stops fails with "Does not match " and the literal |
| ParserCore.IgnoreCaseSpec | MonadPrimusParser.cs:245-274 | the case-insensitive literal yields the text it consumed, which has the literal's length and equals it up to case; it accepts everything the exact literal accepts |
| ParserCore.RegexSpec | MonadPrimusParser.cs:282-311 | a pattern succeeds exactly when its matcher matches after skipping; it yields the matched text and stands after it, and otherwise fails with "Does not match pattern " and the pattern |
| ParserCore.RegexNoSkip | MonadPrimusParser.cs:282-311 | without a skip pattern the matcher runs right at the position |
| ParserCore.RegexKeeps | MonadPrimusParser.cs:282-311 | a pattern parser keeps the environment and stays within the subject; it advances when its matcher never matches the empty prefix |
| ParserCore.EndSpec | MonadPrimusParser.cs:318-342 | the end parser succeeds exactly when only skippable text remains, then stands at the end; otherwise it fails with its message |
| ParserCore.LeftIdentity | MonadPrimusParser.cs:369-426 | unit(v) bound to f behaves as f(v), on every environment and position |
| ParserCore.RightIdentity | MonadPrimusParser.cs:369-426 | binding a parser to the unit behaves as the parser |
| ParserCore.Associativity | MonadPrimusParser.cs:409-426 | binding is associative |
| ParserCore.SelectSpec | MonadPrimusParser.cs:382-399 | Select maps the value of a success and keeps its position; a failure passes through unchanged |
| ParserCore.SelectFunctor | MonadPrimusParser.cs:382-399 | Select with the identity is the parser; Select of a composition is two Selects |
| ParserCore.SelectManySpec | MonadPrimusParser.cs:409-426 | the continuation runs from the position where the first parser stopped, with its value; the first failure is the result |
| ParserCore.SelectIsBind | MonadPrimusParser.cs:382-426 | Select equals bind followed by the unit |
| ParserCore.SelectMany3Spec | MonadPrimusParser.cs:438-444 | the comprehension runs both parsers in sequence and combines their values with the selector |
| ParserCore.SelectErrorSpec | MonadPrimusParser.cs:453-483 | error rewriting changes only the message of a failure, to the rewriting of the old message, and leaves successes alone |
| ParserCore.ChangeErrorSpec | MonadPrimusParser.cs:485-489 | ChangeError replaces the message of any failure with the given message and leaves successes alone |
| ParserCore.ChoiceSpec | MonadPrimusParser.cs:499-509 | the first alternative's success wins; otherwise the second runs from the same position |
| ParserCore.OptionSpec | MonadPrimusParser.cs:519-541 | Option never fails: it gives the parser's success, or the default value at the start position |
| ParserCore.LookaheadSpec | MonadPrimusParser.cs:636-651 | a successful lookahead yields the inner parser's configuration and value but keeps the start position; a failure passes through |
| ParserCore.NotSpec | MonadPrimusParser.cs:660-675 | Not succeeds, without advancing, exactly when the parser fails; otherwise it fails with "Unexpected match" |
| ParserCore.MatchIfSpec | MonadPrimusParserTest.cs:303-311 | MatchIf succeeds exactly when the parser succeeds with a value meeting the predicate; a rejected value fails with "Value is not matched" |
| ParserCore.PrimitivesKeep | MonadPrimusParser.cs:245-342 | the primitives keep the environment and never move backwards or out of the subject |
| ParserCore.CombinatorsKeep | MonadPrimusParser.cs:382-675 | every combinator preserves that property |
| Matchers.RunLength | MonadPrimusParserOpt.cs:116-142 | the run of a character class at the start of a text: all its characters are in the class, and it is maximal up to the bound |
| Matchers.RepeatSpec | MonadPrimusParserOpt.cs:307-318 | a repetition pattern matches its prefix, then exactly the class characters it claims, within its bounds |
| Matchers.PlusMatch | MonadPrimusParserOpt.cs:116-126 | a `[class]+` pattern matches exactly the non-empty run of the class at the start |
| Matchers.RepeatNonEmpty | MonadPrimusParserOpt.cs:303-318 | a repetition pattern with a non-empty prefix or a positive minimum never matches the empty prefix |
| Repetition.ChainStep | MonadPrimusParser.cs:554-563 | one step of a delimited chain is a delimiter and an element, or the end of the chain |
| Repetition.DelimitRestUnfolds | MonadPrimusParser.cs:554-563 | the rest of Delimit satisfies the source's recursive equation: a delimiter and an element folded in, or the accumulated value |
| Repetition.DelimitRestIsFoldLeft | MonadPrimusParser.cs:554-563 | the rest of Delimit never fails; it folds the chain of delimiter-element pairs from the left and ends where the chain ends |
| Repetition.DelimitIsFoldLeft | MonadPrimusParser.cs:554-563 | Delimit fails exactly when the first element fails; otherwise it is the left fold of the chain after the first element |
| Repetition.AdvancingRepeatable | MonadPrimusParser.cs:554-563 | an element that consumes, with any delimiter that keeps the configuration, makes every delimiter-element round consume, so the repetition ends |
| Repetition.DelimiterRepeatable | MonadPrimusParser.cs:554-563 | a non-empty literal delimiter makes every round consume, even for an element that matches empty, such as a cell pattern delimited by "," |
| Repetition.DelimitKeeps | MonadPrimusParser.cs:554-563 | Delimit keeps the configuration and never reads past the subject; it consumes input whenever its element does |
| Repetition.DelimitRightRestUnfolds | MonadPrimusParser.cs:576-586 | the corrected rest of DelimitRight satisfies the source's equation, with the fallback around the whole delimiter-element step |
| Repetition.DelimitRightRestIsFoldRight | MonadPrimusParser.cs:576-586 | the corrected rest folds the same chain as Delimit, from the right |
| Repetition.DelimitRightIsFoldRight | MonadPrimusParser.cs:576-586 | the corrected DelimitRight is the first element and then the right fold of the chain |
| Repetition.FoldsAgree | MonadPrimusParser.cs:554-586 | Delimit and DelimitRight consume the same input; with an associative aggregator they yield the same value |
| Repetition.DelimitRightRestAsWrittenUnfolds | MonadPrimusParser.cs:576-586 | DelimitRight as written puts the fallback inside the delimiter's continuation |
| Repetition.AsWrittenRejectsSingleElement | MonadPrimusParser.cs:576-586 | as written, an element with no delimiter after it fails with the delimiter's message |
| Repetition.AsWrittenDropsLastElement | MonadPrimusParser.cs:576-586 | as written, two elements joined by a delimiter yield only the first element, and the parse stands after the delimiter |
| Repetition.OneOrMoreNeedsOne | MonadPrimusParser.cs:596-599 | OneOrMore fails exactly when its first element fails, with that element's message, and advances otherwise |
| Repetition.ZeroOrMoreSpec | MonadPrimusParser.cs:611-628 | ZeroOrMore never fails; with no element it yields the default after skipping; otherwise it is the repetition |
| Repetition.EmptyStrMatches | MonadPrimusParser.cs:210-237 | the empty literal matches everywhere, consuming only what the skip pattern matches, as OneOrMore's delimiter needs |
| Letrec.Unfold1Keeps | MonadPrimusParser.cs:683-698 | a grammar builder that preserves keeping yields keeping parsers at every depth |
| Letrec.Letrec1.constructor | MonadPrimusParser.cs:683-698 | the memo cell starts empty |
| Letrec.Letrec1.Invoke | MonadPrimusParser.cs:683-698 | the delay parser builds the grammar on its first call only, stores it in the memo cell and then delegates to it; the result is the built grammar's |
| Letrec.Letrec2.constructor | MonadPrimusParser.cs:707-733 | both memo cells start empty |
| Letrec.Letrec2.Invoke1 | MonadPrimusParser.cs:707-733 | the first delay parser fills its own cell once and delegates to the first grammar |
| Letrec.Letrec2.Invoke2 | MonadPrimusParser.cs:707-733 | the second delay parser fills its own cell once and delegates to the second grammar |
| Letrec.Letrec3.constructor | MonadPrimusParser.cs:755-795 | the three memo cells start empty |
| Letrec.Letrec3.Invoke1 | MonadPrimusParser.cs:755-795 | the first of three delay parsers fills its cell once and delegates |
| Letrec.Letrec3.Invoke2 | MonadPrimusParser.cs:755-795 | the second of three delay parsers fills its cell once and delegates |
| Letrec.Letrec3.Invoke3 | MonadPrimusParser.cs:755-795 | the third of three delay parsers fills its cell once and delegates |
| Letrec.Unfold2Extends1 | MonadPrimusParser.cs:683-745 | Letrec1 is Letrec2 with an unused second nonterminal: the two unfoldings agree |
| Numerals.DigitValue | MonadPrimusParserOpt.cs:116-142 | a decimal digit has its numeral value; a hexadecimal, octal or binary digit is below sixteen, eight or two |
| Numerals.NatToStringRoundTrip | sample/HackAssembler.cs:16-29 | reading back the decimal rendering of a natural gives the natural |
| Numerals.NatToStringInjective | sample/HackAssembler.cs:16-29 | distinct naturals render as distinct texts, so the register names differ |
| NumberLiterals.ReadRun | MonadPrimusParserOpt.cs:116-142 | the reference reading of a digit run: its length and its value in the base; nothing for an empty run |
| NumberLiterals.NumberLiteralReads | MonadPrimusParserOpt.cs:116-142 | the number literal parser succeeds exactly when the reference reading does, with its length and value; otherwise it fails with "Does not match number literal" |
| NumberLiterals.ReadNumberBounds | MonadPrimusParserOpt.cs:116-142 | a reading never takes more than the text, and a negative value needs the minus sign |
| NumberLiterals.OctalNeedsLeadingZero | MonadPrimusParserOpt.cs:118-120 | the octal flag changes the reading only for text that starts with "0" or "-0" |
| NumberLiterals.BinaryNeedsPrefix | MonadPrimusParserOpt.cs:124-126 | the binary flag changes the unsigned reading only for text that starts with "0b" |
| NumberLiterals.DecimalWithoutLeadingZero | MonadPrimusParserOpt.cs:128-136 | digits that do not start with "0" are read in base ten, whatever the flags |
| NumberLiterals.OctalReadings | MonadPrimusParserOptTest.cs:125-145 | with both flags "0377" is 255 and "-0377" is -255; with the binary flag alone "0377" is 377 |
| NumberLiterals.ZeroReadings | MonadPrimusParserOptTest.cs:123-126 | "0" reads as 0, and "08", which is not octal, as decimal 8 |
| NumberLiterals.BinaryOffReading | MonadPrimusParserOptTest.cs:128-168 | with the binary flag "0b1111" is 15; without it the reading stops after the leading zero with value 0 |
| NumberLiterals.HexReading | MonadPrimusParserOptTest.cs:127-133 | "0x765" and "-0x765" are read in base sixteen, with their lengths |
| NumberLiterals.LoneMinusFails | MonadPrimusParserOptTest.cs:135 | a lone minus sign fails with "Does not match number literal" |
| NumberLiterals.OctalParsed | MonadPrimusParserOptTest.cs:125 | the parser reads "0377" as 255 and consumes all four characters |
| Escapes.CSharpEscapeDomain | MonadPrimusParserOpt.cs:159-176 | the C# table knows exactly its eleven characters and maps each to one character |
| Escapes.CEscapeExtendsCSharp | MonadPrimusParserOpt.cs:183-201 | the C table is the C# table plus '?' |
| Escapes.JSEscapeDropsBell | MonadPrimusParserOpt.cs:208-224 | the JavaScript table is the C# table without '\a' |
| Escapes.JavaEscapeDropsThree | MonadPrimusParserOpt.cs:231-245 | the Java table is the C# table without '\0', '\a' and '\v' |
| Escapes.CodeUnit | MonadPrimusParserOpt.cs:275-281 | a code unit becomes one character holding its low sixteen bits |
| Escapes.HexToIntSign | MonadPrimusParserOpt.cs:263-273 | the parsed value equals the value of the digits exactly when that value fits in 31 bits |
| Escapes.CodePointToString | MonadPrimusParserOpt.cs:283-286 | a code point has text exactly when it is in range, as the source checks; a surrogate has none, where the source throws (see Left out) |
| Escapes.CodePointOfHex | MonadPrimusParserOpt.cs:319-331 | a hexadecimal code-point escape has text exactly when its value is a code point and not a surrogate (a surrogate throws in the source; see Left out) |
| StringScan.ScanAll | MonadPrimusParserOpt.cs:334 | the longest sequence of fragments at the start of a text: it takes no more than the text, and its text is the fragments' texts in order |
| StringScan.ScanLiteral | MonadPrimusParserOpt.cs:336-339 | a literal is the opening quote, the fragments, and the closing quote right after them |
| StringScan.PlainRun | MonadPrimusParserOpt.cs:302 | a plain run is the text itself; it holds no backslash or quote, holds a newline only when allowed, and is maximal |
| StringScan.FragmentBounds | MonadPrimusParserOpt.cs:302-334 | every fragment takes at least one character and no more than the text has |
| StringScan.PlainUnlessBackslash | MonadPrimusParserOpt.cs:302-334 | text not starting with a backslash is read as a plain run, in either order of alternatives |
| StringScan.OrdersDiffer | MonadPrimusParserOpt.cs:332-334 | the two orders of alternatives read the same fragment, except where both the escape table and a numeric escape apply; there the source's order takes the table's |
| StringScan.UnknownEscapeFallsThrough | MonadPrimusParserOpt.cs:332-334 | an escape the table does not know falls through to the numeric escapes and then to the plain run |
| StringScan.ScanAllEncoded | MonadPrimusParserOpt.cs:296-342 | the fragments of an encoded text, up to the quote, take all of the encoding and stand for the text |
| StringScan.EncodedLiteral | MonadPrimusParserOpt.cs:296-342 | a quoted encoding scans back as the text it encodes, whatever follows the closing quote |
| StringScan.LettersDecode | MonadPrimusParserOpt.cs:302-334 | both orders of alternatives decode the encoding, for a double or single quote and a table that knows quoting |
| StringScan.TablesKnowQuoting | MonadPrimusParserOpt.cs:159-245 | each of the four tables maps backslash, both quotes and 'n' to themselves and the newline |
| StringLiterals.LetterAdvances | MonadPrimusParserOpt.cs:302-334 | the fragment parser consumes at least one character whenever it succeeds |
| StringLiterals.LetterAsWrittenAdvances | MonadPrimusParserOpt.cs:302-334 | so does the fragment parser in the source's order |
| StringLiterals.BetweenSpec | MonadPrimusParserOpt.cs:319-326 | the braced escape runs the opener, the digits and the closer in turn and yields the digits |
| StringLiterals.BracedAgreesWith | MonadPrimusParserOpt.cs:319-326 | the braced code-point escape reads what the braced scanner describes |
| StringLiterals.NumericAgrees | MonadPrimusParserOpt.cs:303-331 | the flagged numeric escapes read what the numeric scanner describes, in front of any base alternative |
| StringLiterals.LetterAgrees | MonadPrimusParserOpt.cs:302-334 | the fragment parser in the intended order reads exactly what its scanner describes |
| StringLiterals.LetterAsWrittenAgrees | MonadPrimusParserOpt.cs:302-334 | the fragment parser in the source's order reads exactly what its scanner describes |
| StringLiterals.ChainReads | MonadPrimusParser.cs:554-563 | a chain of fragments ends where the scanner's ScanAll ends, and its concatenated texts are ScanAll's text |
| StringLiterals.OneOrMoreReads | MonadPrimusParser.cs:596-599 | OneOrMore of a fragment parser reads every fragment ScanAll reads and concatenates their texts |
| StringLiterals.ZeroOrMoreReads | MonadPrimusParserOpt.cs:334 | ZeroOrMore of a fragment parser, with the empty default, reads exactly ScanAll |
| StringLiterals.LiteralReads | MonadPrimusParserOpt.cs:336-341 | the literal parser reads exactly what the literal scanner describes, and otherwise fails with its own message |
| StringLiterals.LiteralFailure | MonadPrimusParserOpt.cs:336-341 | the literal parser fails exactly where its scanner finds no literal, and then with its message |
| StringLiterals.StringLiteralReads | MonadPrimusParserOpt.cs:296-342 | the string literal parser, in the intended order, reads exactly the literal its reference scanner describes |
| StringLiterals.StringLiteralAsWrittenReads | MonadPrimusParserOpt.cs:296-342 | the same for the string literal parser in the source's order |
| StringLiteralLaws.ReadsLiteral | MonadPrimusParserOpt.cs:296-342 | where the scanner reads a literal, the parser reads the same literal |
| StringLiteralLaws.ScannerRoundTrip | MonadPrimusParserOpt.cs:296-342 | the reference scanner reads any encoded text back |
| StringLiteralLaws.StringLiteralRoundTrip | MonadPrimusParserOpt.cs:296-342 | any text written between quotes, with a backslash before each backslash and quote and newlines as \n, reads back as that text; the parser stops right after the closing quote |
| StringLiteralLaws.StringLiteralAsWrittenRoundTrip | MonadPrimusParserOpt.cs:296-342 | the same round trip for the source's order of alternatives |
| StringLiteralLaws.JSRoundTrip | MonadPrimusParserOpt.cs:363-378 | the JavaScript preset, with the escape table tried first as in the source, reads back any encoded text between double quotes |
| StringLiteralLaws.JavaRoundTrip | MonadPrimusParserOpt.cs:385-400 | the Java preset, in the source's order of alternatives, reads back any encoded text between double quotes |
| StringLiteralLaws.CRoundTrip | MonadPrimusParserOpt.cs:407-422 | the C preset, in the source's order of alternatives, reads back any encoded text between double quotes |
| StringLiteralLaws.CSharpRoundTrip | MonadPrimusParserOpt.cs:429-444 | the C# preset, in the source's order of alternatives, reads back any encoded text between double quotes |
| StringLiteralLaws.FailureCarriesMessage | MonadPrimusParserOpt.cs:340-341 | a string literal fails only with its own message, whatever went wrong inside it |
| StringLiteralLaws.FailsWithoutLiteral | MonadPrimusParserOpt.cs:336-341 | where the scanner finds no literal, the parser fails with its message |
| StringLiteralLaws.NoOpeningQuote | MonadPrimusParserOptTest.cs:209 | where the subject ends or does not continue with the quote, the literal fails with its message |
| StringLiteralLaws.UnterminatedFails | MonadPrimusParserOpt.cs:336-341 | a quote followed only by plain characters, with no closing quote, fails with the literal's message |
| StringLiteralLaws.AsWrittenReadsNul | MonadPrimusParserOpt.cs:183-201 | in the source's order, the escape table answers `\0` before the octal escape is tried |
| StringLiteralLaws.OctalReadsNewline | MonadPrimusParserOpt.cs:303-306 | in the intended order, the octal escape `\012` is read as a newline |
| StringLiteralLaws.CLiteralAsWrittenShadowsOctal | MonadPrimusParserOpt.cs:332-334 | in the source's order, the C fragment parser reads `\012` as NUL followed by "12" |
| StringLiteralLaws.CLiteralReadsOctal | MonadPrimusParserOpt.cs:303-306 | in the intended order, the octal escape wins and `\012` is a newline |
| StringLiteralLaws.CStringLiteralOctal | MonadPrimusParserOpt.cs:407-422 | the C preset, as the source builds it, turns `"\012"` into NUL, '1', '2' |
| StringLiteralLaws.CStringLiteralIntendedOctal | MonadPrimusParserOpt.cs:303-306 | the C preset with the octal escape tried first turns `"\012"` into a newline |
| ParserExamples.DigitOk | MonadPrimusParserTest.cs:247-257 | the digit parser reads one digit character as its value |
| ParserExamples.DigitErr | MonadPrimusParserTest.cs:256 | at the end of the subject or before a non-digit, the digit parser fails with "Does not match pattern [0-9]" |
| ParserExamples.DigitSumOfRun | MonadPrimusParserTest.cs:247-269 | the digit-sum repetition reads the whole run of digits at the position and yields their sum |
| ParserExamples.DigitSumOf765 | MonadPrimusParserTest.cs:254 | "765" sums to 18, consuming the whole subject |
| ParserExamples.DigitSumOfEmpty | MonadPrimusParserTest.cs:255-268 | on an empty subject OneOrMore fails with the element's message, and ZeroOrMore yields its default |
| ParserExamples.BlanksSkipped | MonadPrimusParserTest.cs:241 | skipping with the pattern " +" stops after the blanks found at the position |
| ParserExamples.Seven65AfterSkips | MonadPrimusParserTest.cs:241 | with a skip pattern, the three literals of "7  6  5" are read where the skipping stops, yielding "765" |
| ParserExamples.Seven65ReportsMiddle | MonadPrimusParserTest.cs:242 | a wrong middle literal is reported with its own message, "Does not match 6" |
| ParserExamples.NumberAfterSkips | MonadPrimusParserOpt.cs:116-142 | the number literal skips before its sign and again before its digits: where the skip pattern stops at the sign of "- 5" and then at the digit, it reads -5 and ends after the digit |
| ParserExamples.NumberSkipsBlanks | MonadPrimusParserOpt.cs:116-142 | with the blank pattern " +", "- 5" reads as the number -5 |
| ParserExamples.SelectOfRegex | MonadPrimusParser.cs:282-311 | without a skip pattern, a mapped pattern parser yields the mapping of exactly the characters its pattern matched and ends after them |
| ParserExamples.CellReads | sample/CSV.cs:23 | the unquoted cell `[^",\n]*` reads the whole run of cell characters at the position, possibly none, as a one-cell list |
| ParserExamples.CellsRepeatable | sample/CSV.cs:25 | cells delimited by "," make every round consume, although a cell may be empty |
| ParserExamples.RowWithEmptyCell | sample/CSV.cs:25 | the row "a,,b" reads as the three cells "a", "" and "b" and consumes the whole subject |
| ParserExamples.ParensAccepted | MonadPrimusParserTest.cs:313-320 | with enough unfolding, the balanced-parenthesis grammar accepts k nested pairs at any position and yields exactly the text it consumed |
| ParserExamples.ParensThroughMemo | MonadPrimusParserTest.cs:320 | through the memo cell, "((()))" is read whole |
| ParserExamples.UnclosedRejected | MonadPrimusParserTest.cs:321 | a missing last parenthesis, as in "((())", fails with "Unbalanced parenthesis" |
| ParserExamples.UnclosedThroughMemo | MonadPrimusParserTest.cs:321 | the same failure through the memo cell |
| ParserExamples.DelimitRightOnOnePlusTwo | MonadPrimusParser.cs:576-586 | on "1+2", DelimitRight as written yields 1 and stops after the "+"; the corrected one yields 3 and reads everything |
| IdentityMonad.MonadEqualIsEquality | MonadPrimus.cs:71-81 | MonadEqual holds exactly for equal payloads |
| IdentityMonad.LeftIdentity | MonadPrimus.cs:91-107 | unit then bind is the bound function |
| IdentityMonad.RightIdentity | MonadPrimus.cs:91-107 | bind to the unit is the identity |
| IdentityMonad.Associativity | MonadPrimus.cs:104-107 | bind is associative |
| IdentityMonad.SelectMany3Values | MonadPrimus.cs:120-123 | the comprehension applies the selector to both values |
| MaybeMonad.Where | MonadPrimus.cs:194-197 | Where keeps a value that meets the predicate and turns any other into Nothing |
| MaybeMonad.WhereIdempotent | MonadPrimus.cs:194-197 | filtering twice with one predicate is filtering once |
| MaybeMonad.MonadEqualIsEquality | MonadPrimus.cs:220-237 | MonadEqual holds when both are Nothing or both hold equal values |
| MaybeMonad.NothingPropagates | MonadPrimus.cs:247-263 | Nothing passes through Select and SelectMany |
| MaybeMonad.SelectIsBind | MonadPrimus.cs:247-263 | Select is bind followed by the unit |
| MaybeMonad.SelectMany3Spec | MonadPrimus.cs:276-279 | the comprehension has a value exactly when both steps have one, and it is the selector of the two |
| MaybeMonad.LeftIdentity | MonadPrimus.cs:260-263 | unit then bind is the bound function |
| MaybeMonad.RightIdentity | MonadPrimus.cs:260-263 | bind to the unit is the identity |
| MaybeMonad.Associativity | MonadPrimus.cs:260-263 | bind is associative |
| EitherMonad.Or | MonadPrimus.cs:377-380 | Or is this monad when it is a right value, and the other one otherwise |
| EitherMonad.OrAssociative | MonadPrimus.cs:377-380 | a chain of Or gives its first right value |
| EitherMonad.MonadEqualIsEquality | MonadPrimus.cs:402-430 | MonadEqual holds exactly for values on the same side with equal payloads |
| EitherMonad.SidesDiffer | MonadPrimus.cs:402-430 | values on different sides are never equal |
| EitherMonad.LeftPropagates | MonadPrimus.cs:441-498 | a left value passes unchanged through Select, SelectMany and the comprehension |
| EitherMonad.SelectMany3IsBind | MonadPrimus.cs:483-498 | the comprehension written out directly is bind followed by a map |
| EitherMonad.LeftIdentity | MonadPrimus.cs:462-469 | unit then bind is the bound function |
| EitherMonad.RightIdentity | MonadPrimus.cs:462-469 | bind to the unit is the identity |
| EitherMonad.Associativity | MonadPrimus.cs:462-469 | bind is associative |
| StateMonad.GetPutModify | MonadPrimus.cs:548-584 | Get yields the state, Put replaces it, Modify maps it; EvalState and ExecState take the value and the state |
| StateMonad.ModifyIsGetThenPut | MonadPrimus.cs:548-562 | Modify is Get followed by Put of the image |
| StateMonad.PutThenGet | MonadPrimus.cs:548-555 | what was put is what is read next |
| StateMonad.SelectManyThreads | MonadPrimus.cs:625-633 | the second computation sees the state the first one left |
| StateMonad.SelectIsBind | MonadPrimus.cs:607-633 | Select is bind followed by the unit |
| StateMonad.LeftIdentity | MonadPrimus.cs:593-633 | unit then bind is the bound function, on every state |
| StateMonad.RightIdentity | MonadPrimus.cs:593-633 | bind to the unit is the identity, on every state |
| StateMonad.Associativity | MonadPrimus.cs:625-633 | bind is associative, on every state |
| ReaderMonad.LocalAsk | MonadPrimus.cs:662-670 | Ask under Local sees the transformed environment |
| ReaderMonad.LocalComposes | MonadPrimus.cs:670 | nested Local applies the outer transformation first |
| ReaderMonad.LocalOverBind | MonadPrimus.cs:670-710 | Local distributes over bind: every step sees the same environment |
| ReaderMonad.LeftIdentity | MonadPrimus.cs:679-710 | unit then bind is the bound function, in every environment |
| ReaderMonad.RightIdentity | MonadPrimus.cs:679-710 | bind to the unit is the identity, in every environment |
| ReaderMonad.Associativity | MonadPrimus.cs:707-710 | bind is associative, in every environment |
| WriterMonad.LogsConcatenate | MonadPrimus.cs:826-831 | the log of a bind is the first log followed by the second |
| WriterMonad.UnitLogsNothing | MonadPrimus.cs:795-798 | the unit logs nothing, and the string writer's unit logs "" |
| WriterMonad.SelectMany3Spec | MonadPrimus.cs:845-848 | the comprehension logs both steps in order and yields the selector of the two values |
| WriterMonad.LeftIdentity | MonadPrimus.cs:795-831 | unit then bind is the bound function |
| WriterMonad.RightIdentity | MonadPrimus.cs:795-831 | bind to the unit is the identity |
| WriterMonad.Associativity | MonadPrimus.cs:826-831 | bind is associative |
| ContMonad.CallCCEscapes | MonadPrimus.cs:1032-1035 | calling the escape continuation gives the answer of the outer continuation at once |
| ContMonad.CallCCDiscardsRest | MonadPrimus.cs:1032-1035 | whatever is bound after an escape never runs |
| ContMonad.CallCCWithoutEscape | MonadPrimus.cs:1032-1035 | without an escape, CallCC runs the body with the outer continuation |
| ContMonad.SelectApplies | MonadPrimus.cs:989-992 | Select hands the continuation the mapped value |
| ContMonad.LeftIdentity | MonadPrimus.cs:976-1006 | unit then bind is the bound function, for every continuation |
| ContMonad.RightIdentity | MonadPrimus.cs:976-1006 | bind to the unit is the identity, for every continuation |
| ContMonad.Associativity | MonadPrimus.cs:1003-1006 | bind is associative, for every continuation |
| HackAssembler.SymbolTable.constructor | sample/HackAssembler.cs:16-29 | the new table binds SP, LCL, ARG, THIS, THAT to 0-4, R0-R15 to 0-15, SCREEN to 16384 and KBD to 24576, and nothing else |
| HackAssembler.SymbolTable.AddEntry | sample/HackAssembler.cs:31-34 | the name is bound to the value and every other binding stays |
| HackAssembler.SymbolTable.Contains | sample/HackAssembler.cs:36-39 | the answer is whether the name is bound |
| HackAssembler.SymbolTable.GetAddress | sample/HackAssembler.cs:41-48 | a bound name gives its address; an unbound one is the "Symbol not defined" error |
| HackAssembler.RegistersSpec | sample/HackAssembler.cs:16-29 | the register loop binds exactly R0 to R(n-1), each to its number |
| HackAssembler.RegisterNotPointer | sample/HackAssembler.cs:16-29 | no register name clashes with another predefined symbol |
| HackAssembler.FreshTableUnique | sample/HackAssembler.cs:16-29 | the predefined symbols determine the table |
| HackAssembler.Lookup | sample/HackAssembler.cs:91-137 | a mnemonic is found exactly when the table lists it, and its code is one the table pairs with it |
| HackAssembler.CWordFields | sample/HackAssembler.cs:138-141 | the C-instruction word has its top three bits set, and its comp, dest and jump fields read back |
| HackAssembler.TablesFit | sample/HackAssembler.cs:91-137 | dest and jump codes fit in three bits and comp codes in seven |
| HackAssembler.DestBitsName | sample/HackAssembler.cs:91-98 | the dest code's bits name its registers: A is bit 2, D bit 1, M bit 0 |
| HackAssembler.CompABit | sample/HackAssembler.cs:99-129 | the comp code's a-bit is set exactly for the computations that read M |
| HackAssembler.CompCodesDecode | sample/HackAssembler.cs:99-129 | every comp code maps back to its mnemonic, so a word can be disassembled |
| HackAssembler.VariablesCollected | sample/HackAssembler.cs:176-179 | pass 1 collects every symbol used by an A-instruction, without duplicates |
| HackAssembler.AllocateKeeps | sample/HackAssembler.cs:191-197 | allocation keeps every existing binding, binds every variable and nothing else |
| HackAssembler.AllSymbolsDefined | sample/HackAssembler.cs:199-214 | after allocation every symbol of pass 2 is bound, so "Symbol not defined" cannot occur |
| HackAssembler.OneWordPerInstruction | sample/HackAssembler.cs:199-214 | pass 2 emits exactly one word per A- or C-instruction |
| HackAssembler.PcCounts | sample/HackAssembler.cs:183-186 | the pc of pass 1 counts the instructions before the current line |
| HackAssembler.LabelBinding | sample/HackAssembler.cs:172-175 | the last declaration of a label binds it to the address of the next instruction |
| HackAssembler.AllocateConsecutive | sample/HackAssembler.cs:191-197 | the unbound variables get 16, 17, ... in order |
| HackAssembler.VariableAddresses | sample/HackAssembler.cs:162-197 | after pass 1, the variables still unbound get consecutive addresses from 16 in order of first use; labels and predefined names keep theirs |
| HackAssembler.FailsOnlyOnGrammar | sample/HackAssembler.cs:151-216 | assembly fails exactly when a line does not parse; otherwise it yields one word per instruction |
| HackAssembler.FirstErrorExtends | sample/HackAssembler.cs:162-189 | once a line has failed to parse, later lines do not change the error |
| HackAssembler.FirstPass | sample/HackAssembler.cs:162-189 | pass 1 reports the first line that does not parse; otherwise the table holds the labels and the result is the collected variables, as the specification function says |
| HackAssembler.AllocateVariables | sample/HackAssembler.cs:191-197 | the loop binds the variables as the allocation function does |
| HackAssembler.SecondPass | sample/HackAssembler.cs:199-214 | the loop emits the words of the pass 2 function |
| HackAssembler.Assemble | sample/HackAssembler.cs:151-216 | the assembler's result is that of the two-pass specification from a fresh symbol table |
| JackAnalyzer.GetInfo | sample/JackAnalyzer.cs:74-88 | lookup finds a name in the class table first, then in the subroutine table, and fails exactly when neither holds it |
| JackAnalyzer.DefineNumbers | sample/JackAnalyzer.cs:57-67 | giving a symbol its kind's current count keeps indices distinct per kind and below the count |
| JackAnalyzer.SymbolTable.constructor | sample/JackAnalyzer.cs:46-49 | the new table is empty and all four counts are zero |
| JackAnalyzer.SymbolTable.StartSubroutine | sample/JackAnalyzer.cs:51-55 | the subroutine's symbols are forgotten and the ARG and VAR counts reset; the class symbols and their counts stay |
| JackAnalyzer.SymbolTable.Define | sample/JackAnalyzer.cs:57-67 | the name gets the current count of its kind as its index, in the table of its kind; that count alone grows by one, and indices stay distinct |
| JackAnalyzer.SymbolTable.VarCount | sample/JackAnalyzer.cs:69-72 | the count of the kind |
| JackAnalyzer.LabelNameInjective | sample/JackAnalyzer.cs:487-490 | distinct label numbers give distinct labels |
| JackAnalyzer.PushPopRefer | sample/JackAnalyzer.cs:492-502 | a known variable is pushed or popped in the segment of its kind at its index; an unknown one is "symbol ... is not defined" |
| JackAnalyzer.SegmentsOfKinds | sample/JackAnalyzer.cs:492-502 | STATIC maps to static, FIELD to this, ARG to argument and VAR to local, one segment per kind |
| JackAnalyzer.RenderAppend | sample/JackAnalyzer.cs:504-513 | the text of appended code is the texts appended |
| JackAnalyzer.StringCode | sample/JackAnalyzer.cs:156-178 | a string constant is String.new of its length, then one appendChar per character, in order |
| JackAnalyzer.PutStringConst | sample/JackAnalyzer.cs:156-178 | the character loop emits that code |
| JackAnalyzer.Cat | sample/JackAnalyzer.cs:504-513 | code pieces in order; the first missing symbol is the error |
| JackAnalyzer.ExprCode | sample/JackAnalyzer.cs:112-331 | an expression compiles exactly when all its variables are known |
| JackAnalyzer.ArgsCode | sample/JackAnalyzer.cs:274-331 | argument lists compile exactly when each argument does |
| JackAnalyzer.StmtCode | sample/JackAnalyzer.cs:333-475 | a statement compiles exactly when all its variables are known, and uses labels from the given number on; on an unknown symbol it reports the labels taken before it |
| JackAnalyzer.StmtsCode | sample/JackAnalyzer.cs:504-513 | statement lists compile exactly when each statement does, threading the label number, also up to the first unknown symbol |
| JackAnalyzer.UnknownConditionTakesLabels | sample/JackAnalyzer.cs:385-421 | an if whose condition names an unknown variable fails with "symbol … is not defined" after taking its two labels, and a while after taking its three |
| JackAnalyzer.ExprEffect | sample/JackAnalyzer.cs:112-331 | the code of an expression leaves exactly one more value on the VM stack |
| JackAnalyzer.StmtEffect | sample/JackAnalyzer.cs:333-475 | the code of a statement leaves the stack as it found it |
| JackAnalyzer.ConstantCodeEvaluates | sample/JackAnalyzer.cs:130-255 | running the code of a constant expression pushes its 16-bit value and leaves the rest of the stack alone |
| JackAnalyzer.HeaderEffect | sample/JackAnalyzer.cs:551-569 | the subroutine header leaves the stack as it found it |
| JackAnalyzer.LabelCounter.constructor | sample/JackAnalyzer.cs:477 | the static label counter starts at 0, once for all analyzers |
| JackAnalyzer.JackAnalyzer.constructor | sample/JackAnalyzer.cs:477-549 | the analyzer starts with empty class and subroutine tables, zero counts of every kind and no fields, and shares the label counter without resetting it |
| JackAnalyzer.JackAnalyzer.GetLabel | sample/JackAnalyzer.cs:487-490 | the label is "LABEL:" and the shared counter, which then moves on by one; nothing else changes |
| JackAnalyzer.LabelsContinueAcrossAnalyzers | sample/JackAnalyzer.cs:477-490 | two analyzers over the one counter number their labels 0 and then 1: the second continues where the first stopped |
| JackAnalyzer.JackAnalyzer.InitClass | sample/JackAnalyzer.cs:545-549 | a class starts with a fresh, empty symbol table |
| JackAnalyzer.JackAnalyzer.DefineArg | sample/JackAnalyzer.cs:520-524 | a parameter becomes the next ARG |
| JackAnalyzer.JackAnalyzer.DefineVariable | sample/JackAnalyzer.cs:526-533 | the names get the next indices of their kind in order, and the count grows by their number; the new table is the old one with the names defined in order, every other name keeps its entry, and the other scope is unchanged |
| JackAnalyzer.DefineAllInOrder | sample/JackAnalyzer.cs:526-533 | after defining names in order, each name not repeated later holds the type, the kind and its own index |
| JackAnalyzer.DefineAllAgrees | sample/JackAnalyzer.cs:526-533 | defining names leaves every other name of the table bound as it was, and binds no other name |
| JackAnalyzer.JackAnalyzer.StartSubroutine | sample/JackAnalyzer.cs:535-543 | the subroutine starts afresh; a method first defines its receiver as argument 0 |
| JackAnalyzer.JackAnalyzer.CreateSubroutine | sample/JackAnalyzer.cs:551-569 | the header, then the statements' code, with labels numbered from the shared counter, which moves past them; an unknown symbol is the error, and the counter keeps the labels taken before it |
| JackAnalyzer.LabelsTakenBeforeError | sample/JackAnalyzer.cs:385-391 | a subroutine whose if tests an unknown variable fails, and the next analyzer's first label is "LABEL:2" |
| JackAnalyzer.MethodArgumentsStartAtOne | sample/JackAnalyzer.cs:520-543 | in a method, the first declared parameter is argument 1 |
| SExpression.Car | sample/SExpression.cs:73-110 | a pair has a car, the empty list and atoms have none |
| SExpression.Cdr | sample/SExpression.cs:73-110 | a pair has a cdr, the empty list and atoms have none |
| SExpression.Value | sample/SExpression.cs:115-131 | an atom has a value; pairs and the empty list have none |
| SExpression.ToString | sample/SExpression.cs:26-67 | the loop along the cdr chain writes the printed form |
| SExpression.ListOf | sample/SExpression.cs:73-90 | the proper list of the elements: empty exactly for no elements |
| SExpression.ListPrint | sample/SExpression.cs:26-54 | a proper list prints as its elements one space apart in parentheses; the empty list as () |
| SExpression.ImproperListOf | sample/SExpression.cs:73-90 | the cons chain of the elements ending in an atom: that atom alone exactly for no elements, otherwise a pair headed by the first element |
| SExpression.DottedPrint | sample/SExpression.cs:26-49 | a pair whose cdr is an atom prints with " . " before the atom |
| SExpression.ImproperListPrint | sample/SExpression.cs:30-49 | an improper list of one or more elements ending in an atom prints as its elements one space apart, then " . " and the atom, in parentheses |
| SExpression.PrintBalanced | sample/SExpression.cs:26-67 | when no symbol holds a parenthesis, the printed form opens as many parentheses as it closes |

## Left out

- Literals under a skip pattern. The number and string literal parsers are modelled with the
  skip pattern of the configuration, which the source applies before every literal and pattern
  inside them. With the pattern " +", the string literal reads `" a"` as "a" and drops the
  blank after the escape in `"\n b"`, the number literal reads `- 5` as -5 (ParserExamples.NumberSkipsBlanks proves this one case), and both skip blanks
  before their first character. The statements about these parsers that are listed next are
  proved only for a configuration without a skip pattern, and say nothing of that behaviour:
  - NumberLiterals.NumberLiteralReads: stated without a skip pattern.
  - StringLiterals.StringLiteralReads: stated without a skip pattern.
  - StringLiterals.StringLiteralAsWrittenReads: stated without a skip pattern.
  - StringLiterals.LiteralReads: stated without a skip pattern.
  - StringLiterals.LiteralFailure: stated without a skip pattern.
  - StringLiterals.LetterAgrees: stated without a skip pattern.
  - StringLiterals.LetterAsWrittenAgrees: stated without a skip pattern.
  - StringLiterals.NumericAgrees: stated without a skip pattern.
  - StringLiterals.BracedAgreesWith: stated without a skip pattern.
  - StringLiterals.OneOrMoreReads: stated without a skip pattern.
  - StringLiterals.ZeroOrMoreReads: stated without a skip pattern.
  - StringLiteralLaws.ReadsLiteral: stated without a skip pattern.
  - StringLiteralLaws.StringLiteralRoundTrip: stated without a skip pattern.
  - StringLiteralLaws.StringLiteralAsWrittenRoundTrip: stated without a skip pattern.
  - StringLiteralLaws.JSRoundTrip: stated without a skip pattern.
  - StringLiteralLaws.JavaRoundTrip: stated without a skip pattern.
  - StringLiteralLaws.CRoundTrip: stated without a skip pattern.
  - StringLiteralLaws.CSharpRoundTrip: stated without a skip pattern.
  - StringLiteralLaws.FailureCarriesMessage: stated without a skip pattern.
  - StringLiteralLaws.FailsWithoutLiteral: stated without a skip pattern.
  - StringLiteralLaws.NoOpeningQuote: stated without a skip pattern.
  - StringLiteralLaws.UnterminatedFails: stated without a skip pattern.
  - StringLiteralLaws.CStringLiteralOctal: stated without a skip pattern.
  - StringLiteralLaws.CStringLiteralIntendedOctal: stated without a skip pattern.
- Regular expressions are not interpreted. Each pattern is a hand-written anchored matcher
  for the regular expressions the library itself uses. The model keeps the regular
  expression's text only for error messages.
- `Real` (MonadPrimusParser.cs:349-361) parses floating point numbers and is not modelled.
- `JavaIdentifier` (MonadPrimusParserOpt.cs:84-87) is not modelled, because its pattern
  needs Unicode character categories.
- Case-insensitive comparison folds ASCII letters only; culture-dependent case folding is not
  modelled.
- Decoded text is a sequence of Dafny characters. A code point above U+FFFF becomes one
  character rather than a UTF-16 surrogate pair. A lone surrogate, which the source builds
  from a `\u` or `\x` escape, becomes U+FFFD. The same holds for the string constants of the
  Jack compiler: JackAnalyzer.StringCode counts and codes Dafny characters, where the source
  counts UTF-16 code units, so a character above U+FFFF gives one `appendChar` instead of two.
- Escapes.CodePointToString: for a surrogate code point (U+D800 to U+DFFF) the source's
  `char.ConvertFromUtf32` throws an exception that escapes the parser. The model returns no
  text instead, so that escape alternative fails and the parse falls through to the next
  alternative. Escapes.CodePointOfHex inherits this.
- NumberLiterals.NumberLiteralReads: values are unbounded integers, where the source converts
  to a 64-bit `long`. A decimal literal above 9223372036854775807 makes `long.Parse` throw an
  exception that escapes the parser; an octal, hexadecimal or binary literal of 2^63 up to
  2^64 - 1 becomes a negative number, and a longer one throws; negating -2^63 gives -2^63
  again. Numerals.BaseValue is likewise unbounded.
- Letrec.Letrec1.Invoke: the self-reference of the delay parser is unfolded a bounded number
  of times, chosen when the memo cell is made; a grammar that nests deeper fails with
  "Recursion depth exhausted". The same holds for Letrec2 and Letrec3.
- Repetition.Repeatable, and through it Chain, ChainEnd, Delimit, DelimitRight and their
  lemmas: the element and the delimiter must keep the configuration and each
  (delimiter, element) round must consume input. Either one alone may match empty, as a
  cell pattern delimited by "," does. The source recurses forever when a round can succeed
  without consuming, so those uses are the ones left out.
- Repetition.OneOrMore and Repetition.ZeroOrMore need an element that consumes, because their
  delimiter is the empty literal. The source recurses forever on an element that succeeds
  without consuming.
- ParserExamples.Row: the row of the CSV sample (sample/CSV.cs:20-33) is modelled with the
  unquoted cell only. The quoted-cell alternative, the guard against an empty line and the
  newline-delimited column of rows are left out: the row is there to exercise Delimit with
  an element that matches empty.
- WriterMonad: the writer's delegate is forced as soon as it is built, so a writer is its
  value and log. Laziness is not modelled.
- ContMonad.RightIdentity and ContMonad.Associativity are stated for computations that look
  only at the results of the continuation they are given, as every computation written with
  lambdas does.
- Null references and `default(T)` are not values here: a default value is passed in
  explicitly.
- HackAssembler.Assemble: the source keeps its symbol table in a static field shared by every
  run. The model makes a fresh table per run, as a single run sees it.
- HackAssembler.Assemble takes the lines already parsed by the line grammar. The text-level
  grammar of each line and `int.Parse` overflow are not modelled.
- The Jack parser grammar that builds the expression and statement objects is not modelled.
  Code generation starts from the objects.
- JackAnalyzer.ConstantCodeEvaluates: VM evaluation is modelled only for constant
  expressions without multiplication or division, which are calls into the Jack OS.
- StringLiterals.StringLiteral and StringLiterals.StringLiteralAsWritten: the source writes the
  quote character unescaped into the character class of its plain-run pattern
  (MonadPrimusParserOpt.cs:301-304). A quote that is special inside a class changes the pattern
  or makes it invalid: with `]` the pattern reads "a character other than backslash, a newline,
  then one or more `]`", and `\` or `-` can leave it unparsable. The model reads every quote
  character as itself. Its statements about these parsers (StringScan.PlainRun, the letter and
  literal lemmas of StringLiterals and StringLiteralLaws) therefore describe the source only
  for other quote characters, such as the double quote of the four presets.
- JackAnalyzer.JackAnalyzer.constructor: the source's symbol table is null until `InitClass`;
  the model starts with an empty one.
- `SExpression.Parse` (sample/SExpression.cs:138-167) is not modelled. Atoms hold a boolean
  or a text, the two kinds the printer distinguishes.

## Findings

| source | as written | input that shows it | evidently intended | confidence | as-written member | corrected member |
|---|---|---|---|---|---|---|
| MonadPrimusParser.cs:576-586 | DelimitRight places the fallback to the accumulated value inside the delimiter's continuation, so a delimiter must be followed by an element and the last element is lost | "1+2" with a digit element and a "+" delimiter yields 1 and stops after the "+"; a single "1" fails | a right fold of the same delimiter-element chain that Delimit folds from the left: "1+2" yields 3 | not executed | Repetition.AsWrittenDropsLastElement | Repetition.DelimitRightIsFoldRight |
| MonadPrimusParserOpt.cs:332-334 | the escape-table alternative is tried before the numeric escapes, and the C and JavaScript tables map '0' to NUL | `"\012"` with the C preset reads NUL, '1', '2' | the octal escape is read: `"\012"` is a newline | not executed | StringLiteralLaws.CLiteralAsWrittenShadowsOctal | StringLiteralLaws.CLiteralReadsOctal |
