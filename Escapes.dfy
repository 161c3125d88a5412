/**
 * The escape-character tables of MonadPrimusParserOpt.cs and the numeric
 * conversions its string literal parser applies to escape sequences.
 *
 * A table maps the character after a backslash to the text it stands for,
 * or to nothing (the source's null) when the table has no entry for it.
 *
 * Strings here are sequences of Unicode scalar values. A UTF-16 code unit
 * (what the source's (char) cast yields) that is a surrogate has no scalar
 * value; the model renders it as U+FFFD.
 */
module Escapes {
  import opened Wrappers
  import opened Numerals

  const Bell := '\U{0007}'
  const Backspace := '\U{0008}'
  const FormFeed := '\U{000C}'
  const VerticalTab := '\U{000B}'
  const Replacement := '\U{FFFD}'

  function CSharpEscapeChar(x: char): Option<string>
  {
    match x
    case '0' => Some("\0")
    case 'a' => Some([Bell])
    case 'b' => Some([Backspace])
    case 'f' => Some([FormFeed])
    case 'n' => Some("\n")
    case 'r' => Some("\r")
    case 't' => Some("\t")
    case 'v' => Some([VerticalTab])
    case '\'' => Some("'")
    case '"' => Some("\"")
    case '\\' => Some("\\")
    case _ => None
  }

  function CEscapeChar(x: char): Option<string>
  {
    match x
    case '0' => Some("\0")
    case 'a' => Some([Bell])
    case 'b' => Some([Backspace])
    case 'f' => Some([FormFeed])
    case 'n' => Some("\n")
    case 'r' => Some("\r")
    case 't' => Some("\t")
    case 'v' => Some([VerticalTab])
    case '\'' => Some("'")
    case '"' => Some("\"")
    case '\\' => Some("\\")
    case '?' => Some("?")
    case _ => None
  }

  function JSEscapeChar(x: char): Option<string>
  {
    match x
    case '0' => Some("\0")
    case 'b' => Some([Backspace])
    case 'f' => Some([FormFeed])
    case 'n' => Some("\n")
    case 'r' => Some("\r")
    case 't' => Some("\t")
    case 'v' => Some([VerticalTab])
    case '\'' => Some("'")
    case '"' => Some("\"")
    case '\\' => Some("\\")
    case _ => None
  }

  function JavaEscapeChar(x: char): Option<string>
  {
    match x
    case 'b' => Some([Backspace])
    case 't' => Some("\t")
    case 'n' => Some("\n")
    case 'r' => Some("\r")
    case 'f' => Some([FormFeed])
    case '\'' => Some("'")
    case '"' => Some("\"")
    case '\\' => Some("\\")
    case _ => None
  }

  /** The characters the C# table knows. */
  predicate IsCSharpEscape(x: char)
  {
    x in "0abfnrtv'\"\\"
  }

  // ----- How the tables relate -----

  /** The C# table knows exactly its eleven characters, and maps each to a single character. */
  lemma {:induction false} CSharpEscapeDomain(x: char)
    ensures CSharpEscapeChar(x).Some? <==> IsCSharpEscape(x)
    ensures CSharpEscapeChar(x).Some? ==> |CSharpEscapeChar(x).value| == 1
  {
  }

  /** The C table is the C# table plus '?'. */
  lemma {:induction false} CEscapeExtendsCSharp(x: char)
    ensures CEscapeChar(x) == if x == '?' then Some("?") else CSharpEscapeChar(x)
  {
  }

  /** The JavaScript table is the C# table without '\a'. */
  lemma {:induction false} JSEscapeDropsBell(x: char)
    ensures JSEscapeChar(x) == if x == 'a' then None else CSharpEscapeChar(x)
  {
  }

  /** The Java table is the C# table without '\0', '\a' and '\v'. */
  lemma {:induction false} JavaEscapeDropsThree(x: char)
    ensures JavaEscapeChar(x) == if x == '0' || x == 'a' || x == 'v' then None else CSharpEscapeChar(x)
  {
  }

  // ----- Numeric escapes -----

  predicate IsSurrogate(v: int)
  {
    0xD800 <= v <= 0xDFFF
  }

  /** A code unit as text: the (char) cast keeps the low 16 bits. */
  function CodeUnit(v: nat): (s: string)
    ensures |s| == 1
    ensures !IsSurrogate(v % 0x1_0000) ==> s[0] as int == v % 0x1_0000
  {
    var u := v % 0x1_0000;
    if IsSurrogate(u) then [Replacement] else [u as char]
  }

  /**
   * Convert.ToInt32(x, 16) on a non-empty run of hex digits: the digits are
   * read as an unsigned 32-bit number, reinterpreted as a signed one; more
   * than 32 bits overflow, which HexToInt reports as -1.
   */
  function HexToInt(x: string): int
  {
    var v := BaseValue(x, 16);
    if v >= 0x1_0000_0000 then -1
    else if v >= 0x8000_0000 then v - 0x1_0000_0000
    else v
  }

  /** The text of a code point; nothing out of range (or for a surrogate, which has no text). */
  function CodePointToString(x: int): (r: Option<string>)
    ensures r.Some? ==> |r.value| == 1 && r.value[0] as int == x
  {
    if x < 0 || x > 0x10FFFF || IsSurrogate(x) then None else Some([x as char])
  }

  /** HexToInt is the value of the digits exactly when that value fits in 31 bits. */
  lemma {:induction false} HexToIntSign(x: string)
    ensures HexToInt(x) >= 0 <==> BaseValue(x, 16) < 0x8000_0000
    ensures HexToInt(x) >= 0 ==> HexToInt(x) == BaseValue(x, 16)
  {
  }

  /** A hex code point escape has text exactly when its value is a code point that is not a surrogate. */
  lemma {:induction false} CodePointOfHex(x: string)
    ensures CodePointToString(HexToInt(x)).Some? <==>
            BaseValue(x, 16) <= 0x10FFFF && !IsSurrogate(BaseValue(x, 16))
  {
    HexToIntSign(x);
  }
}
