/**
 * A character-level description of what the string literal parser of
 * MonadPrimusParserOpt.cs reads: one scanner per kind of fragment (an
 * escape from the escape table, an octal or hexadecimal escape, a code
 * point escape, a run of plain characters), the order in which a fragment
 * is chosen, and the literal as a quote, the longest sequence of fragments,
 * and a closing quote.
 *
 * The module StringLiterals proves that the parser built from combinators
 * reads exactly what these scanners describe.
 */
module StringScan {
  import opened Wrappers
  import opened Matchers
  import opened Numerals
  import opened Escapes

  /** A fragment that was read: how many characters it took, and the text it stands for. */
  datatype Token = Token(length: nat, text: string)

  // ----- The flags of the literal, as the source's bit set -----

  const IncludeNewline: nat := 1
  const Octal: nat := 2
  const Hexadecimal: nat := 4
  const Unicode: nat := 8
  const Unicodex: nat := 16
  const JSStyleCodePoint: nat := 32
  const CSharpStyleCodePoint: nat := 64

  /** (flags & bit) == bit, for a bit that is a power of two. */
  predicate HasFlag(flags: nat, bit: nat)
  {
    bit > 0 && (flags / bit) % 2 == 1
  }

  // ----- Character classes -----

  predicate IsQuaternaryDigit(ch: char) { '0' <= ch <= '3' }

  predicate NotNewline(ch: char) { ch != '\n' }

  /** A character of a plain run: not a backslash, not the quote, and not a newline unless newlines are allowed. */
  predicate IsPlainChar(quote: char, newline: bool, ch: char)
  {
    ch != '\\' && ch != quote && (newline || ch != '\n')
  }

  function PlainClass(quote: char, newline: bool): char -> bool
  {
    (ch: char) => IsPlainChar(quote, newline, ch)
  }

  /** t[i..j] is a run of hex digits. */
  predicate HexDigitsAt(t: string, i: nat, j: nat)
  {
    i <= j <= |t| && forall k :: i <= k < j ==> IsHexDigit(t[k])
  }

  // ----- One scanner per kind of fragment -----

  /** `\c` for a character c (not a newline) that the escape table maps to a text. */
  function ScanEscape(esc: char -> Option<string>, t: string): Option<Token>
  {
    if 2 <= |t| && t[0] == '\\' && t[1] != '\n' && esc(t[1]).Some? then Some(Token(2, esc(t[1]).value))
    else None
  }

  /** `\` and three octal digits, the first at most 3: one code unit. */
  function ScanOctal(t: string): Option<Token>
  {
    if 4 <= |t| && t[0] == '\\' && IsQuaternaryDigit(t[1]) && IsOctalDigit(t[2]) && IsOctalDigit(t[3])
    then Some(Token(4, CodeUnit(BaseValue(t[1..4], 8))))
    else None
  }

  /** `\x` and the longest run of one to four hex digits: one code unit. */
  function ScanUnicodex(t: string): Option<Token>
  {
    if "\\x" <= t then
      var n := RunLength(t[2..], IsHexDigit, 4);
      if 1 <= n then Some(Token(2 + n, CodeUnit(BaseValue(t[2..2 + n], 16)))) else None
    else None
  }

  /** `\x` and exactly two hex digits: one code unit. */
  function ScanHexPair(t: string): Option<Token>
  {
    if "\\x" <= t && HexDigitsAt(t, 2, 4) then Some(Token(4, CodeUnit(BaseValue(t[2..4], 16)))) else None
  }

  /** `\u` and four hex digits: one code unit. */
  function ScanUnicode(t: string): Option<Token>
  {
    if "\\u" <= t && HexDigitsAt(t, 2, 6) then Some(Token(6, CodeUnit(BaseValue(t[2..6], 16)))) else None
  }

  /** A fragment of n characters for a text that may be missing (the source's null). */
  function Defined(n: nat, text: Option<string>): Option<Token>
  {
    if text.Some? then Some(Token(n, text.value)) else None
  }

  /** `\u{`, one or more hex digits and `}`: a code point. */
  function ScanBraced(t: string): Option<Token>
  {
    if "\\u{" <= t then
      var n := RunLength(t[3..], IsHexDigit, |t|);
      if 1 <= n && 3 + n < |t| && t[3 + n] == '}' then Defined(4 + n, CodePointToString(HexToInt(t[3..3 + n])))
      else None
    else None
  }

  /** `\U` and eight hex digits: a code point. */
  function ScanLong(t: string): Option<Token>
  {
    if "\\U" <= t && HexDigitsAt(t, 2, 10) then Defined(10, CodePointToString(HexToInt(t[2..10]))) else None
  }

  /** The longest non-empty run of plain characters, read as itself. */
  function ScanPlain(quote: char, newline: bool, t: string): Option<Token>
  {
    var n := RunLength(t, PlainClass(quote, newline), |t|);
    if 0 < n then Some(Token(n, t[..n])) else None
  }

  // ----- Choosing a fragment -----

  function FirstOf(a: Option<Token>, b: Option<Token>): Option<Token>
  {
    if a.Some? then a else b
  }

  /** An alternative that is switched on by a flag and, when it reads something, wins. */
  function Prefer(flag: bool, a: Option<Token>, rest: Option<Token>): Option<Token>
  {
    if flag && a.Some? then a else rest
  }

  /**
   * The numeric escapes in the order the source tries them (the last one it
   * adds is tried first), before the fragment `base`.
   */
  function ScanNumeric(flags: nat, t: string, base: Option<Token>): Option<Token>
  {
    Prefer(HasFlag(flags, CSharpStyleCodePoint), ScanLong(t),
    Prefer(HasFlag(flags, JSStyleCodePoint), ScanBraced(t),
    Prefer(HasFlag(flags, Unicode), ScanUnicode(t),
    Prefer(HasFlag(flags, Hexadecimal), ScanHexPair(t),
    Prefer(HasFlag(flags, Unicodex), ScanUnicodex(t),
    Prefer(HasFlag(flags, Octal), ScanOctal(t), base))))))
  }

  /** The fragment as the source chooses it: the escape table first, then the numeric escapes, then a plain run. */
  function ScanLetterAsWritten(quote: char, esc: char -> Option<string>, flags: nat, t: string): Option<Token>
  {
    FirstOf(ScanEscape(esc, t), ScanNumeric(flags, t, ScanPlain(quote, HasFlag(flags, IncludeNewline), t)))
  }

  /** The fragment in the intended order: the numeric escapes, then the escape table, then a plain run. */
  function ScanLetter(quote: char, esc: char -> Option<string>, flags: nat, t: string): Option<Token>
  {
    ScanNumeric(flags, t, FirstOf(ScanEscape(esc, t), ScanPlain(quote, HasFlag(flags, IncludeNewline), t)))
  }

  // ----- Reading a whole literal -----

  /** A scanner whose fragments are never empty and never longer than the text. */
  ghost predicate Tokenizes(scan: string -> Option<Token>)
  {
    forall t :: scan(t).Some? ==> 0 < scan(t).value.length <= |t|
  }

  /**
   * The longest sequence of fragments at the start of t: how much it takes
   * and what it stands for. A fragment that takes nothing (or more than
   * there is) ends the sequence; the scanners above never yield one.
   */
  function ScanAll(scan: string -> Option<Token>, t: string): (r: Token)
    ensures r.length <= |t|
    decreases |t|
  {
    match scan(t)
    case None => Token(0, "")
    case Some(tok) =>
      if 0 < tok.length <= |t| then
        var rest := ScanAll(scan, t[tok.length..]);
        Token(tok.length + rest.length, tok.text + rest.text)
      else Token(0, "")
  }

  /** The opening quote, the fragments, and the closing quote right after them. */
  function ScanLiteral(quote: char, scan: string -> Option<Token>, t: string): (r: Option<Token>)
    ensures r.Some? ==> 2 <= r.value.length <= |t| && t[0] == quote && t[r.value.length - 1] == quote
  {
    if 0 < |t| && t[0] == quote then
      var body := ScanAll(scan, t[1..]);
      if 1 + body.length < |t| && t[1 + body.length] == quote then Some(Token(body.length + 2, body.text))
      else None
    else None
  }

  // ----- Properties of the fragments -----

  /** A plain run is the text itself, holds no backslash and no quote, holds a newline only when allowed, and is maximal. */
  lemma {:induction false} PlainRun(quote: char, newline: bool, t: string)
    ensures var r := ScanPlain(quote, newline, t);
            (r.None? <==> t == [] || !IsPlainChar(quote, newline, t[0])) &&
            (r.Some? ==> var n := r.value.length;
                         0 < n <= |t| && r.value.text == t[..n] &&
                         (forall i :: 0 <= i < n ==> t[i] != '\\' && t[i] != quote) &&
                         (!newline ==> forall i :: 0 <= i < n ==> t[i] != '\n') &&
                         (n < |t| ==> !IsPlainChar(quote, newline, t[n])))
  {
    var n := RunLength(t, PlainClass(quote, newline), |t|);
    forall i | 0 <= i < n ensures IsPlainChar(quote, newline, t[i]) {
      assert PlainClass(quote, newline)(t[i]);
    }
    if n < |t| {
      assert !PlainClass(quote, newline)(t[n]);
    }
  }

  /** Every fragment of a scanner takes at least one character and no more than the text has. */
  lemma {:induction false} FragmentBounds(quote: char, esc: char -> Option<string>, flags: nat, t: string)
    ensures var r := ScanLetter(quote, esc, flags, t); r.Some? ==> 0 < r.value.length <= |t|
    ensures var r := ScanLetterAsWritten(quote, esc, flags, t); r.Some? ==> 0 < r.value.length <= |t|
  {
    var nl := HasFlag(flags, IncludeNewline);
    PlainRun(quote, nl, t);
    if "\\x" <= t {
      var n := RunLength(t[2..], IsHexDigit, 4);
    }
    if "\\u{" <= t {
      var n := RunLength(t[3..], IsHexDigit, |t|);
    }
  }

  function LetterScanner(quote: char, esc: char -> Option<string>, flags: nat): string -> Option<Token>
  {
    (t: string) => ScanLetter(quote, esc, flags, t)
  }

  function LetterScannerAsWritten(quote: char, esc: char -> Option<string>, flags: nat): string -> Option<Token>
  {
    (t: string) => ScanLetterAsWritten(quote, esc, flags, t)
  }

  lemma {:induction false} ScannersTokenize(quote: char, esc: char -> Option<string>, flags: nat)
    ensures Tokenizes(LetterScanner(quote, esc, flags))
    ensures Tokenizes(LetterScannerAsWritten(quote, esc, flags))
  {
    forall t ensures var r := ScanLetter(quote, esc, flags, t); r.Some? ==> 0 < r.value.length <= |t| {
      FragmentBounds(quote, esc, flags, t);
    }
    forall t ensures var r := ScanLetterAsWritten(quote, esc, flags, t); r.Some? ==> 0 < r.value.length <= |t| {
      FragmentBounds(quote, esc, flags, t);
    }
  }

  /** Every numeric escape starts with a backslash. */
  lemma {:induction false} NumericNeedsBackslash(flags: nat, t: string, base: Option<Token>)
    requires t == [] || t[0] != '\\'
    ensures ScanNumeric(flags, t, base) == base
  {
  }

  /** Text that does not start with a backslash is read as a plain run, in either order. */
  lemma {:induction false} PlainUnlessBackslash(quote: char, esc: char -> Option<string>, flags: nat, t: string)
    requires t == [] || t[0] != '\\'
    ensures ScanLetter(quote, esc, flags, t) == ScanPlain(quote, HasFlag(flags, IncludeNewline), t)
    ensures ScanLetterAsWritten(quote, esc, flags, t) == ScanPlain(quote, HasFlag(flags, IncludeNewline), t)
  {
    NumericNeedsBackslash(flags, t, FirstOf(ScanEscape(esc, t), ScanPlain(quote, HasFlag(flags, IncludeNewline), t)));
    NumericNeedsBackslash(flags, t, ScanPlain(quote, HasFlag(flags, IncludeNewline), t));
  }

  /** The numeric escapes come first, whatever follows them. */
  lemma {:induction false} NumericFirst(flags: nat, t: string, base: Option<Token>)
    ensures ScanNumeric(flags, t, base) == FirstOf(ScanNumeric(flags, t, None), base)
  {
  }

  /**
   * The two orders read the same fragment except where the escape table and
   * a numeric escape both apply; there the source takes the table's.
   */
  lemma {:induction false} OrdersDiffer(quote: char, esc: char -> Option<string>, flags: nat, t: string)
    ensures ScanLetter(quote, esc, flags, t) != ScanLetterAsWritten(quote, esc, flags, t) ==>
              ScanEscape(esc, t).Some? && ScanNumeric(flags, t, None).Some?
    ensures ScanEscape(esc, t).Some? ==> ScanLetterAsWritten(quote, esc, flags, t) == ScanEscape(esc, t)
    ensures ScanNumeric(flags, t, None).Some? ==> ScanLetter(quote, esc, flags, t) == ScanNumeric(flags, t, None)
  {
    var plain := ScanPlain(quote, HasFlag(flags, IncludeNewline), t);
    NumericFirst(flags, t, plain);
    NumericFirst(flags, t, FirstOf(ScanEscape(esc, t), plain));
  }

  /** An escape the table does not know falls through to the numeric escapes and the plain run. */
  lemma {:induction false} UnknownEscapeFallsThrough(quote: char, esc: char -> Option<string>, flags: nat, t: string)
    requires 2 <= |t| && esc(t[1]).None?
    ensures ScanLetterAsWritten(quote, esc, flags, t) ==
            ScanNumeric(flags, t, ScanPlain(quote, HasFlag(flags, IncludeNewline), t))
    ensures ScanLetter(quote, esc, flags, t) ==
            ScanNumeric(flags, t, ScanPlain(quote, HasFlag(flags, IncludeNewline), t))
  {
  }

  // ----- Writing a text as a literal, and reading it back -----

  /** A character inside a literal: backslash, quote and newline are escaped, every other character stands for itself. */
  function EncodeChar(quote: char, ch: char): string
  {
    if ch == '\\' then "\\\\"
    else if ch == quote then ['\\', quote]
    else if ch == '\n' then "\\n"
    else [ch]
  }

  function Encode(quote: char, x: string): string
  {
    if x == [] then [] else EncodeChar(quote, x[0]) + Encode(quote, x[1..])
  }

  /** A character that Encode leaves as it is. */
  predicate IsUnescaped(quote: char, ch: char)
  {
    ch != '\\' && ch != quote && ch != '\n'
  }

  function UnescapedClass(quote: char): char -> bool
  {
    (ch: char) => IsUnescaped(quote, ch)
  }

  /** The character that `\c` stands for in every escape table: c itself, and a newline for n. */
  function Unescape(ch: char): char
  {
    if ch == 'n' then '\n' else ch
  }

  /** What a fragment scanner must do for Encode to be read back: plain text as itself, and the three escapes. */
  ghost predicate DecodesEscapes(scan: string -> Option<Token>, quote: char, newline: bool)
  {
    (forall t :: 0 < |t| && t[0] != '\\' ==> scan(t) == ScanPlain(quote, newline, t)) &&
    (forall t :: 2 <= |t| && t[0] == '\\' && (t[1] == '\\' || t[1] == quote || t[1] == 'n') ==>
                 scan(t) == Some(Token(2, [Unescape(t[1])])))
  }

  lemma {:induction false} EncodeAppend(quote: char, x: string, y: string)
    ensures Encode(quote, x + y) == Encode(quote, x) + Encode(quote, y)
    decreases |x|
  {
    if x != [] {
      assert (x + y)[1..] == x[1..] + y;
      EncodeAppend(quote, x[1..], y);
    } else {
      assert x + y == y;
    }
  }

  lemma {:induction false} EncodeUnescaped(quote: char, x: string)
    requires forall i :: 0 <= i < |x| ==> IsUnescaped(quote, x[i])
    ensures Encode(quote, x) == x
    decreases |x|
  {
    if x != [] {
      EncodeUnescaped(quote, x[1..]);
      assert [x[0]] + x[1..] == x;
    }
  }

  /** Encode leaves the leading run of unescaped characters as it is. */
  lemma {:induction false} EncodeSplit(quote: char, x: string, n: nat)
    requires n <= |x|
    requires forall i :: 0 <= i < n ==> IsUnescaped(quote, x[i])
    ensures Encode(quote, x) == x[..n] + Encode(quote, x[n..])
  {
    assert x == x[..n] + x[n..];
    EncodeUnescaped(quote, x[..n]);
    EncodeAppend(quote, x[..n], x[n..]);
  }

  /** The leading run of unescaped characters of a text. */
  lemma {:induction false} UnescapedPrefix(quote: char, x: string)
    requires x != [] && IsUnescaped(quote, x[0])
    ensures var n := RunLength(x, UnescapedClass(quote), |x|);
            0 < n <= |x| && (forall i :: 0 <= i < n ==> IsUnescaped(quote, x[i])) &&
            (n < |x| ==> !IsUnescaped(quote, x[n]))
  {
    var n := RunLength(x, UnescapedClass(quote), |x|);
    assert UnescapedClass(quote)(x[0]);
    forall i | 0 <= i < n ensures IsUnescaped(quote, x[i]) {
      assert UnescapedClass(quote)(x[i]);
    }
    if n < |x| {
      assert !UnescapedClass(quote)(x[n]);
    }
  }

  /** Unescaped characters followed by a backslash or the quote are one plain run. */
  lemma {:induction false} PlainOfUnescaped(quote: char, newline: bool, u: string, r: string, e: string, tail: string)
    requires e == u + r
    requires 0 < |u| && forall i :: 0 <= i < |u| ==> IsUnescaped(quote, u[i])
    requires 0 < |r + tail| && ((r + tail)[0] == '\\' || (r + tail)[0] == quote)
    ensures 0 < |e + tail| && (e + tail)[0] != '\\'
    ensures ScanPlain(quote, newline, e + tail) == Some(Token(|u|, u))
    ensures (e + tail)[|u|..] == r + tail
  {
    var t := e + tail;
    var rest := r + tail;
    assert t == u + rest;
    forall i | 0 <= i < |u| ensures PlainClass(quote, newline)(t[i]) {
      assert t[i] == u[i];
    }
    assert t[|u|] == rest[0];
    RunLengthExact(t, PlainClass(quote, newline), |t|, |u|);
    assert t[..|u|] == u;
    assert t[|u|..] == rest;
  }

  /** After the leading unescaped run, an encoding (followed by the quote) starts with a backslash or the quote. */
  lemma {:induction false} AfterUnescaped(quote: char, x: string, n: nat, tail: string)
    requires quote != 'n'
    requires n <= |x| && (n < |x| ==> !IsUnescaped(quote, x[n]))
    requires 0 < |tail| && tail[0] == quote
    ensures var rest := Encode(quote, x[n..]) + tail; 0 < |rest| && (rest[0] == '\\' || rest[0] == quote)
  {
    if n < |x| {
      EncodeHead(quote, x[n..]);
    } else {
      assert x[n..] == [];
    }
  }

  /** On an encoding that starts with unescaped characters, the plain run takes all of them. */
  lemma {:induction false} PlainStep(quote: char, newline: bool, x: string, tail: string)
    requires quote != '\\' && quote != 'n'
    requires 0 < |tail| && tail[0] == quote
    requires x != [] && IsUnescaped(quote, x[0])
    ensures var n := RunLength(x, UnescapedClass(quote), |x|);
            var t := Encode(quote, x) + tail;
            0 < n && 0 < |t| && t[0] != '\\' &&
            ScanPlain(quote, newline, t) == Some(Token(n, x[..n])) && t[n..] == Encode(quote, x[n..]) + tail
  {
    var n := RunLength(x, UnescapedClass(quote), |x|);
    UnescapedPrefix(quote, x);
    EncodeSplit(quote, x, n);
    AfterUnescaped(quote, x, n, tail);
    PlainOfUnescaped(quote, newline, x[..n], Encode(quote, x[n..]), Encode(quote, x), tail);
  }

  /** An encoding starts with the first character when it is unescaped, and with a backslash when it is not. */
  lemma {:induction false} EncodeHead(quote: char, x: string)
    requires quote != 'n'
    requires x != []
    ensures Encode(quote, x) == EncodeChar(quote, x[0]) + Encode(quote, x[1..])
    ensures |Encode(quote, x)| > 0
    ensures !IsUnescaped(quote, x[0]) ==>
              |Encode(quote, x)| >= 2 && Encode(quote, x)[0] == '\\' && Unescape(Encode(quote, x)[1]) == x[0] &&
              Encode(quote, x)[2..] == Encode(quote, x[1..]) &&
              (Encode(quote, x)[1] == '\\' || Encode(quote, x)[1] == quote || Encode(quote, x)[1] == 'n')
  {
  }

  /** On an encoding that starts with an escaped character, the first two characters are that escape. */
  lemma {:induction false} EscapeStep(quote: char, x: string, tail: string)
    requires quote != 'n'
    requires x != [] && !IsUnescaped(quote, x[0])
    ensures var t := Encode(quote, x) + tail;
            2 <= |t| && t[0] == '\\' && (t[1] == '\\' || t[1] == quote || t[1] == 'n') &&
            Unescape(t[1]) == x[0] && t[2..] == Encode(quote, x[1..]) + tail
  {
    EncodeHead(quote, x);
    var e := Encode(quote, x);
    assert (e + tail)[2..] == e[2..] + tail;
  }

  /** ScanAll takes one fragment, then the rest. */
  lemma {:induction false} ScanAllStep(scan: string -> Option<Token>, t: string, tok: Token)
    requires Tokenizes(scan) && scan(t) == Some(tok)
    ensures tok.length <= |t|
    ensures ScanAll(scan, t) == Token(tok.length + ScanAll(scan, t[tok.length..]).length,
                                      tok.text + ScanAll(scan, t[tok.length..]).text)
  {
  }

  /** One fragment standing for the start of a text, then fragments standing for the rest of it. */
  lemma {:induction false} FragmentThenRest(scan: string -> Option<Token>, e: string, rest: string, tail: string, n: nat, u: string, v: string)
    requires Tokenizes(scan)
    requires n + |rest| == |e| && scan(e + tail) == Some(Token(n, u))
    requires (e + tail)[n..] == rest + tail
    requires ScanAll(scan, rest + tail) == Token(|rest|, v)
    ensures ScanAll(scan, e + tail) == Token(|e|, u + v)
  {
    ScanAllStep(scan, e + tail, Token(n, u));
  }

  /** The step of the round trip at a run of unescaped characters, given the round trip of what follows. */
  lemma {:induction false} EncodedPlainCase(scan: string -> Option<Token>, quote: char, newline: bool, x: string, tail: string, n: nat)
    requires Tokenizes(scan)
    requires scan(Encode(quote, x) + tail) == ScanPlain(quote, newline, Encode(quote, x) + tail)
    requires quote != '\\' && quote != 'n'
    requires 0 < |tail| && tail[0] == quote
    requires x != [] && IsUnescaped(quote, x[0]) && n == RunLength(x, UnescapedClass(quote), |x|)
    requires ScanAll(scan, Encode(quote, x[n..]) + tail) == Token(|Encode(quote, x[n..])|, x[n..])
    ensures ScanAll(scan, Encode(quote, x) + tail) == Token(|Encode(quote, x)|, x)
  {
    var e := Encode(quote, x);
    var rest := Encode(quote, x[n..]);
    PlainStep(quote, newline, x, tail);
    UnescapedPrefix(quote, x);
    EncodeSplit(quote, x, n);
    FragmentThenRest(scan, e, rest, tail, n, x[..n], x[n..]);
    assert x[..n] + x[n..] == x;
  }

  /** The step of the round trip at an escaped character, given the round trip of what follows. */
  lemma {:induction false} EncodedEscapeCase(scan: string -> Option<Token>, quote: char, x: string, tail: string)
    requires Tokenizes(scan)
    requires quote != 'n'
    requires x != [] && !IsUnescaped(quote, x[0])
    requires scan(Encode(quote, x) + tail) == Some(Token(2, [x[0]]))
    requires ScanAll(scan, Encode(quote, x[1..]) + tail) == Token(|Encode(quote, x[1..])|, x[1..])
    ensures ScanAll(scan, Encode(quote, x) + tail) == Token(|Encode(quote, x)|, x)
  {
    EscapeStep(quote, x, tail);
    EncodeHead(quote, x);
    FragmentThenRest(scan, Encode(quote, x), Encode(quote, x[1..]), tail, 2, [x[0]], x[1..]);
    assert [x[0]] + x[1..] == x;
  }

  /** An encoding that opens with an unescaped character is read by the plain-run scanner. */
  lemma {:induction false} PlainScanned(scan: string -> Option<Token>, quote: char, newline: bool, x: string, tail: string)
    requires DecodesEscapes(scan, quote, newline)
    requires quote != '\\' && quote != 'n'
    requires 0 < |tail| && tail[0] == quote
    requires x != [] && IsUnescaped(quote, x[0])
    ensures scan(Encode(quote, x) + tail) == ScanPlain(quote, newline, Encode(quote, x) + tail)
  {
    PlainStep(quote, newline, x, tail);
  }

  /** An encoding that opens with an escaped character is read as that one character. */
  lemma {:induction false} EscapeScanned(scan: string -> Option<Token>, quote: char, newline: bool, x: string, tail: string)
    requires DecodesEscapes(scan, quote, newline)
    requires quote != 'n'
    requires x != [] && !IsUnescaped(quote, x[0])
    ensures scan(Encode(quote, x) + tail) == Some(Token(2, [x[0]]))
  {
    EscapeStep(quote, x, tail);
  }

  /** The fragments of an encoded text, up to a quote, stand for the text and take all of its encoding. */
  lemma {:induction false} ScanAllEncoded(scan: string -> Option<Token>, quote: char, newline: bool, x: string, tail: string)
    requires Tokenizes(scan) && DecodesEscapes(scan, quote, newline)
    requires quote != '\\' && quote != 'n'
    requires 0 < |tail| && tail[0] == quote
    ensures ScanAll(scan, Encode(quote, x) + tail) == Token(|Encode(quote, x)|, x)
    decreases |x|
  {
    if x == [] {
      assert Encode(quote, x) + tail == tail;
      RunLengthExact(tail, PlainClass(quote, newline), |tail|, 0);
      assert scan(tail) == ScanPlain(quote, newline, tail);
    } else if IsUnescaped(quote, x[0]) {
      var n := RunLength(x, UnescapedClass(quote), |x|);
      UnescapedPrefix(quote, x);
      ScanAllEncoded(scan, quote, newline, x[n..], tail);
      PlainScanned(scan, quote, newline, x, tail);
      EncodedPlainCase(scan, quote, newline, x, tail, n);
    } else {
      ScanAllEncoded(scan, quote, newline, x[1..], tail);
      EscapeScanned(scan, quote, newline, x, tail);
      EncodedEscapeCase(scan, quote, x, tail);
    }
  }

  /** A literal is read when its fragments end right before a quote. */
  lemma {:induction false} LiteralOfBody(quote: char, scan: string -> Option<Token>, t: string, body: Token)
    requires 0 < |t| && t[0] == quote
    requires ScanAll(scan, t[1..]) == body
    requires 1 + body.length < |t| && t[1 + body.length] == quote
    ensures ScanLiteral(quote, scan, t) == Some(Token(body.length + 2, body.text))
  {
  }

  /** A quoted encoding reads back as the text it encodes, whatever follows the closing quote. */
  lemma {:induction false} EncodedLiteral(scan: string -> Option<Token>, quote: char, newline: bool, x: string, rest: string)
    requires Tokenizes(scan) && DecodesEscapes(scan, quote, newline)
    requires quote != '\\' && quote != 'n'
    ensures ScanLiteral(quote, scan, [quote] + Encode(quote, x) + [quote] + rest) ==
            Some(Token(|Encode(quote, x)| + 2, x))
  {
    var e := Encode(quote, x);
    QuotedShape(quote, e, rest);
    ScanAllEncoded(scan, quote, newline, x, [quote] + rest);
    LiteralOfBody(quote, scan, [quote] + e + [quote] + rest, Token(|e|, x));
  }

  /** Where the two quotes of a quoted text sit. */
  lemma QuotedShape(quote: char, e: string, rest: string)
    ensures 0 < |[quote] + e + [quote] + rest| && ([quote] + e + [quote] + rest)[0] == quote
    ensures ([quote] + e + [quote] + rest)[1..] == e + ([quote] + rest)
    ensures 1 + |e| < |[quote] + e + [quote] + rest| && ([quote] + e + [quote] + rest)[1 + |e|] == quote
  {
    var t := [quote] + e + [quote] + rest;
    assert t[1..] == e + ([quote] + rest);
  }

  /** An escape table that maps backslash, the quote and n as every table of the source does. */
  predicate KnowsQuoting(esc: char -> Option<string>, quote: char)
  {
    esc('\\') == Some("\\") && esc(quote) == Some([quote]) && esc('n') == Some("\n")
  }

  /** No numeric escape starts with a backslash followed by a backslash, a quote or n. */
  lemma {:induction false} NoNumericAfter(flags: nat, t: string)
    requires 2 <= |t| && t[0] == '\\' && (t[1] == '\\' || t[1] == '"' || t[1] == '\'' || t[1] == 'n')
    ensures ScanNumeric(flags, t, None) == None
  {
    assert !("\\x" <= t) && !("\\u" <= t) && !("\\U" <= t) by {
      assert t[1] != 'x' && t[1] != 'u' && t[1] != 'U';
    }
    assert !("\\u{" <= t) by {
      assert t[1] != 'u';
    }
  }

  /** Both fragment orders read back Encode, for a double or single quote and a table that knows quoting. */
  lemma {:induction false} LettersDecode(quote: char, esc: char -> Option<string>, flags: nat)
    requires quote == '"' || quote == '\''
    requires KnowsQuoting(esc, quote)
    ensures DecodesEscapes(LetterScanner(quote, esc, flags), quote, HasFlag(flags, IncludeNewline))
    ensures DecodesEscapes(LetterScannerAsWritten(quote, esc, flags), quote, HasFlag(flags, IncludeNewline))
  {
    var nl := HasFlag(flags, IncludeNewline);
    forall t | 0 < |t| && t[0] != '\\'
      ensures LetterScanner(quote, esc, flags)(t) == ScanPlain(quote, nl, t)
      ensures LetterScannerAsWritten(quote, esc, flags)(t) == ScanPlain(quote, nl, t)
    {
      PlainUnlessBackslash(quote, esc, flags, t);
    }
    forall t | 2 <= |t| && t[0] == '\\' && (t[1] == '\\' || t[1] == quote || t[1] == 'n')
      ensures LetterScanner(quote, esc, flags)(t) == Some(Token(2, [Unescape(t[1])]))
      ensures LetterScannerAsWritten(quote, esc, flags)(t) == Some(Token(2, [Unescape(t[1])]))
    {
      NoNumericAfter(flags, t);
      NumericFirst(flags, t, FirstOf(ScanEscape(esc, t), ScanPlain(quote, nl, t)));
      assert ScanEscape(esc, t) == Some(Token(2, [Unescape(t[1])]));
    }
  }

  /** Each table of the source knows quoting for both quote characters. */
  lemma {:induction false} TablesKnowQuoting(esc: char -> Option<string>, quote: char)
    requires quote == '"' || quote == '\''
    requires esc == CSharpEscapeChar || esc == CEscapeChar || esc == JSEscapeChar || esc == JavaEscapeChar
    ensures KnowsQuoting(esc, quote)
  {
  }
}
