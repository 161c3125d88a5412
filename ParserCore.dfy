/**
 * The parsing engine of MonadPrimusParser.cs: configurations, results, the
 * primitive parsers (literal, case-insensitive literal, pattern, end of
 * input) and the combinators that sequence, transform and choose between
 * parsers.
 *
 * A parser is a pure function from a configuration and a position to a
 * result. Regular expressions are abstracted as anchored matchers: a
 * matcher tells the length of the match that starts at the first character
 * of the text it is given, or that there is none. This is exactly what the
 * source uses of .NET's Regex (a match whose index is 0, and its length).
 */
module ParserCore {
  import opened Wrappers

  /** A matcher never reports a match longer than its text. */
  ghost predicate Anchored(m: string -> Option<nat>) {
    forall s: string :: m(s).Some? ==> m(s).value <= |s|
  }

  type Matcher = m: string -> Option<nat> | Anchored(m) witness (s: string) => None

  /** A pattern: its textual form (used in default error messages) and its matcher. */
  datatype Pattern = Pattern(text: string, matcher: Matcher)

  /** The string to parse and the optional skip pattern applied before each primitive. */
  datatype Config = Config(subject: string, skip: Option<Matcher>)

  datatype Result<T> = Ok(config: Config, pos: nat, value: T) | Err(message: string)

  type Parser<T> = (Config, nat) -> Result<T>

  /** A parser keeps the configuration, never moves backwards and never leaves the subject. */
  ghost predicate Keeps<T>(p: Parser<T>) {
    forall c: Config, pos: nat :: p(c, pos).Ok? ==>
      p(c, pos).config == c && pos <= p(c, pos).pos <= Max(pos, |c.subject|)
  }

  /** A parser that keeps and consumes at least one character whenever it succeeds. */
  ghost predicate Advancing<T>(p: Parser<T>) {
    Keeps(p) && forall c: Config, pos: nat :: p(c, pos).Ok? ==> pos < p(c, pos).pos
  }

  datatype Outcome<T> = Parsed(result: Result<T>) | InvalidPosition

  /** Runs a parser from a start position, which must lie within the subject. */
  function Run<T>(p: Parser<T>, subject: string, start: int, skip: Option<Matcher>): (r: Outcome<T>)
    ensures r.InvalidPosition? <==> start < 0 || |subject| < start
    ensures r.Parsed? ==> r.result == p(Config(subject, skip), start)
  {
    if start < 0 || |subject| < start then InvalidPosition
    else Parsed(p(Config(subject, skip), start))
  }

  /** The position after the skip pattern's match at pos (pos itself when it does not match). */
  function SkipFrom(s: string, pos: nat, skip: Option<Matcher>): (r: nat)
    ensures pos <= r <= Max(pos, |s|)
    ensures skip.None? ==> r == pos
    ensures skip.Some? && pos <= |s| && skip.value(s[pos..]).None? ==> r == pos
    ensures skip.Some? && pos <= |s| && skip.value(s[pos..]).Some? ==> r == pos + skip.value(s[pos..]).value
  {
    match skip
    case None => pos
    case Some(m) =>
      if pos <= |s| then
        match m(s[pos..])
        case Some(n) => pos + n
        case None => pos
      else pos
  }

  function StrMsg(a: string, message: string): Parser<string>
  {
    (c: Config, pos: nat) =>
      var at := SkipFrom(c.subject, pos, c.skip);
      if at + |a| <= |c.subject| && c.subject[at..at + |a|] == a then Ok(c, at + |a|, a)
      else Err(message)
  }

  function Str(a: string): Parser<string>
  {
    StrMsg(a, "Does not match " + a)
  }

  /** A literal matches exactly when the subject, after skipping, starts with it. */
  lemma {:induction false} StrSpec(a: string, message: string, c: Config, pos: nat)
    ensures var r := StrMsg(a, message)(c, pos);
            var at := SkipFrom(c.subject, pos, c.skip);
            (r.Ok? <==> at <= |c.subject| && a <= c.subject[at..]) &&
            (r.Ok? ==> r.config == c && r.pos == at + |a| && r.value == a && c.subject[at..r.pos] == a) &&
            (r.Err? ==> r.message == message)
  {
    var at := SkipFrom(c.subject, pos, c.skip);
    if at <= |c.subject| && a <= c.subject[at..] {
      assert c.subject[at..at + |a|] == c.subject[at..][..|a|];
    }
  }

  lemma {:induction false} StrKeeps(a: string, message: string)
    ensures Keeps(StrMsg(a, message))
    ensures |a| > 0 ==> Advancing(StrMsg(a, message))
  {
  }

  /** A literal that is present where the skip pattern stops is read. */
  lemma {:induction false} StrPresent(a: string, c: Config, pos: nat, at: nat)
    requires SkipFrom(c.subject, pos, c.skip) == at
    requires at + |a| <= |c.subject| && c.subject[at..at + |a|] == a
    ensures Str(a)(c, pos) == Ok(c, at + |a|, a)
  {
  }

  /** A literal that is absent where the skip pattern stops fails with its default message. */
  lemma {:induction false} StrAbsent(a: string, c: Config, pos: nat, at: nat)
    requires SkipFrom(c.subject, pos, c.skip) == at
    requires !(at + |a| <= |c.subject| && c.subject[at..at + |a|] == a)
    ensures Str(a)(c, pos) == Err("Does not match " + a)
  {
  }

  /** The same for a literal with its default message. */
  lemma {:induction false} StrLiteralKeeps(a: string)
    ensures Keeps(Str(a))
    ensures |a| > 0 ==> Advancing(Str(a))
  {
    StrKeeps(a, "Does not match " + a);
  }

  /** ASCII lower-casing, for the case-insensitive literal. */
  function Lower(ch: char): char
  {
    if 'A' <= ch <= 'Z' then (ch as int + 32) as char else ch
  }

  function LowerStr(s: string): string
  {
    seq(|s|, i requires 0 <= i < |s| => Lower(s[i]))
  }

  function IgnoreCaseMsg(a: string, message: string): Parser<string>
  {
    (c: Config, pos: nat) =>
      var at := SkipFrom(c.subject, pos, c.skip);
      if at + |a| <= |c.subject| && LowerStr(c.subject[at..at + |a|]) == LowerStr(a) then
        Ok(c, at + |a|, c.subject[at..at + |a|])
      else Err(message)
  }

  function IgnoreCase(a: string): Parser<string>
  {
    IgnoreCaseMsg(a, "Does not match " + a)
  }

  /**
   * The case-insensitive literal yields the text it consumed, which has the
   * literal's length and agrees with it up to case; it accepts everything
   * the exact literal accepts, with the same result.
   */
  lemma {:induction false} IgnoreCaseSpec(a: string, message: string, c: Config, pos: nat)
    ensures var r := IgnoreCaseMsg(a, message)(c, pos);
            var at := SkipFrom(c.subject, pos, c.skip);
            (r.Ok? ==> r.config == c && r.pos == at + |a| && r.value == c.subject[at..r.pos] &&
                       |r.value| == |a| && LowerStr(r.value) == LowerStr(a)) &&
            (r.Err? ==> r.message == message) &&
            (StrMsg(a, message)(c, pos).Ok? ==> r == StrMsg(a, message)(c, pos))
  {
  }

  function RegexMsg(pat: Pattern, message: string): Parser<string>
  {
    (c: Config, pos: nat) =>
      var at := SkipFrom(c.subject, pos, c.skip);
      if at <= |c.subject| then
        match pat.matcher(c.subject[at..])
        case Some(n) => Ok(c, at + n, c.subject[at..at + n])
        case None => Err(message)
      else Err(message)
  }

  function Regex(pat: Pattern): Parser<string>
  {
    RegexMsg(pat, "Does not match pattern " + pat.text)
  }

  /** A pattern parser yields exactly the text its matcher matched after skipping. */
  lemma {:induction false} RegexSpec(pat: Pattern, message: string, c: Config, pos: nat)
    ensures var r := RegexMsg(pat, message)(c, pos);
            var at := SkipFrom(c.subject, pos, c.skip);
            (r.Ok? <==> at <= |c.subject| && pat.matcher(c.subject[at..]).Some?) &&
            (r.Ok? ==> r.config == c && r.pos == at + pat.matcher(c.subject[at..]).value &&
                       r.value == c.subject[at..r.pos]) &&
            (r.Err? ==> r.message == message)
  {
  }

  /** Without a skip pattern, a pattern parser runs its matcher right at the position. */
  lemma {:induction false} RegexNoSkip(pat: Pattern, message: string, c: Config, pos: nat)
    requires c.skip.None? && pos <= |c.subject|
    ensures RegexMsg(pat, message)(c, pos) ==
            match pat.matcher(c.subject[pos..])
            case Some(n) => Ok(c, pos + n, c.subject[pos..pos + n])
            case None => Err(message)
  {
    assert SkipFrom(c.subject, pos, c.skip) == pos;
    var t := c.subject[pos..];
    match pat.matcher(t)
    case Some(n) =>
      assert n <= |t|;
    case None =>
  }

  /** A pattern whose matcher never matches the empty prefix gives an advancing parser. */
  lemma {:induction false} RegexKeeps(pat: Pattern, message: string)
    ensures Keeps(RegexMsg(pat, message))
    ensures (forall s :: pat.matcher(s) != Some(0)) ==> Advancing(RegexMsg(pat, message))
  {
    var p := RegexMsg(pat, message);
    forall c: Config, pos: nat | p(c, pos).Ok?
      ensures p(c, pos).config == c && pos <= p(c, pos).pos <= Max(pos, |c.subject|)
    {
      var at := SkipFrom(c.subject, pos, c.skip);
      assert pat.matcher(c.subject[at..]).value <= |c.subject[at..]|;
    }
    if forall s :: pat.matcher(s) != Some(0) {
      forall c: Config, pos: nat | p(c, pos).Ok? ensures pos < p(c, pos).pos {
        var at := SkipFrom(c.subject, pos, c.skip);
        assert pat.matcher(c.subject[at..]) != Some(0);
      }
    }
  }

  function EndMsg(message: string): Parser<int>
  {
    (c: Config, pos: nat) =>
      var at := SkipFrom(c.subject, pos, c.skip);
      if at >= |c.subject| then Ok(c, at, 0) else Err(message)
  }

  function End(): Parser<int>
  {
    EndMsg("Not reached to end of parsing")
  }

  /** The end parser succeeds exactly when only skippable text is left, and then stands at the end. */
  lemma {:induction false} EndSpec(message: string, c: Config, pos: nat)
    requires pos <= |c.subject|
    ensures var r := EndMsg(message)(c, pos);
            (r.Ok? <==> SkipFrom(c.subject, pos, c.skip) == |c.subject|) &&
            (r.Ok? ==> r == Ok(c, |c.subject|, 0)) &&
            (r.Err? ==> r.message == message)
  {
  }

  function ToParser<T>(v: T): Parser<T>
  {
    (c: Config, pos: nat) => Ok(c, pos, v)
  }

  function Select<T, U>(p: Parser<T>, f: T -> U): Parser<U>
  {
    (c: Config, pos: nat) =>
      match p(c, pos)
      case Err(m) => Err(m)
      case Ok(c1, pos1, v) => Ok(c1, pos1, f(v))
  }

  function SelectMany<T, U>(p: Parser<T>, m: T -> Parser<U>): Parser<U>
  {
    (c: Config, pos: nat) =>
      match p(c, pos)
      case Err(msg) => Err(msg)
      case Ok(c1, pos1, v) => m(v)(c1, pos1)
  }

  function SelectMany3<T, U, V>(p: Parser<T>, m: T -> Parser<U>, f: (T, U) -> V): Parser<V>
  {
    SelectMany(p, (t: T) => SelectMany(m(t), (u: U) => ToParser(f(t, u))))
  }

  function SelectError<T>(p: Parser<T>, f: string -> string): Parser<T>
  {
    (c: Config, pos: nat) =>
      match p(c, pos)
      case Err(m) => Err(f(m))
      case Ok(c1, pos1, v) => Ok(c1, pos1, v)
  }

  function ChangeError<T>(p: Parser<T>, message: string): Parser<T>
  {
    SelectError(p, (m: string) => message)
  }

  function Choice<T>(p1: Parser<T>, p2: Parser<T>): Parser<T>
  {
    (c: Config, pos: nat) =>
      var r1 := p1(c, pos);
      if r1.Err? then p2(c, pos) else r1
  }

  function Option<T>(p: Parser<T>, default: T): Parser<T>
  {
    (c: Config, pos: nat) =>
      var r := p(c, pos);
      if r.Err? then Ok(c, pos, default) else r
  }

  function Lookahead<T>(p: Parser<T>): Parser<T>
  {
    (c: Config, pos: nat) =>
      match p(c, pos)
      case Err(m) => Err(m)
      case Ok(c1, pos1, v) => Ok(c1, pos, v)
  }

  function Not<T>(p: Parser<T>, default: T): Parser<T>
  {
    (c: Config, pos: nat) =>
      if p(c, pos).Err? then Ok(c, pos, default) else Err("Unexpected match")
  }

  /** Yields the current position without consuming anything. */
  function GetPosition(): Parser<nat>
  {
    (c: Config, pos: nat) => Ok(c, pos, pos)
  }

  /** Keeps a success only when its value satisfies the predicate. */
  function MatchIf<T>(p: Parser<T>, pred: T -> bool): Parser<T>
  {
    (c: Config, pos: nat) =>
      match p(c, pos)
      case Err(m) => Err(m)
      case Ok(c1, pos1, v) => if pred(v) then Ok(c1, pos1, v) else Err("Value is not matched")
  }

  // ----- Laws -----

  /** unit(v).bind(f) behaves as f(v). */
  lemma {:induction false} LeftIdentity<T, U>(v: T, f: T -> Parser<U>, c: Config, pos: nat)
    ensures SelectMany(ToParser(v), f)(c, pos) == f(v)(c, pos)
  {
  }

  /** m.bind(unit) behaves as m. */
  lemma {:induction false} RightIdentity<T>(p: Parser<T>, c: Config, pos: nat)
    ensures SelectMany(p, (v: T) => ToParser(v))(c, pos) == p(c, pos)
  {
  }

  /** m.bind(f).bind(g) behaves as m.bind(x => f(x).bind(g)). */
  lemma {:induction false} Associativity<T, U, V>(p: Parser<T>, f: T -> Parser<U>, g: U -> Parser<V>, c: Config, pos: nat)
    ensures SelectMany(SelectMany(p, f), g)(c, pos) == SelectMany(p, (x: T) => SelectMany(f(x), g))(c, pos)
  {
  }

  /** Select maps the value of a success and passes a failure through. */
  lemma {:induction false} SelectSpec<T, U>(p: Parser<T>, f: T -> U, c: Config, pos: nat)
    ensures p(c, pos).Ok? ==> Select(p, f)(c, pos) == Ok(p(c, pos).config, p(c, pos).pos, f(p(c, pos).value))
    ensures p(c, pos).Err? ==> Select(p, f)(c, pos) == Err(p(c, pos).message)
  {
  }

  /** Select with the identity function, and Select of a composition (the functor laws). */
  lemma {:induction false} SelectFunctor<T, U, V>(p: Parser<T>, f: T -> U, g: U -> V, c: Config, pos: nat)
    ensures Select(p, (x: T) => x)(c, pos) == p(c, pos)
    ensures Select(Select(p, f), g)(c, pos) == Select(p, (x: T) => g(f(x)))(c, pos)
  {
  }

  /** SelectMany continues from where the first parser stopped, with its value. */
  lemma {:induction false} SelectManySpec<T, U>(p: Parser<T>, m: T -> Parser<U>, c: Config, pos: nat)
    ensures p(c, pos).Ok? ==> SelectMany(p, m)(c, pos) == m(p(c, pos).value)(p(c, pos).config, p(c, pos).pos)
    ensures p(c, pos).Err? ==> SelectMany(p, m)(c, pos) == Err(p(c, pos).message)
  {
  }

  /** Select is bind followed by unit. */
  lemma {:induction false} SelectIsBind<T, U>(p: Parser<T>, f: T -> U, c: Config, pos: nat)
    ensures Select(p, f)(c, pos) == SelectMany(p, (v: T) => ToParser(f(v)))(c, pos)
  {
  }

  /** The three-argument bind runs both parsers in sequence and combines their values. */
  lemma {:induction false} SelectMany3Spec<T, U, V>(p: Parser<T>, m: T -> Parser<U>, f: (T, U) -> V, c: Config, pos: nat)
    ensures var r := SelectMany3(p, m, f)(c, pos);
            match p(c, pos)
            case Err(msg) => r == Err(msg)
            case Ok(c1, pos1, t) =>
              match m(t)(c1, pos1)
              case Err(msg) => r == Err(msg)
              case Ok(c2, pos2, u) => r == Ok(c2, pos2, f(t, u))
  {
  }

  /** Ordered choice: the first alternative's success wins; otherwise the second runs from the same place. */
  lemma {:induction false} ChoiceSpec<T>(p1: Parser<T>, p2: Parser<T>, c: Config, pos: nat)
    ensures p1(c, pos).Ok? ==> Choice(p1, p2)(c, pos) == p1(c, pos)
    ensures p1(c, pos).Err? ==> Choice(p1, p2)(c, pos) == p2(c, pos)
  {
  }

  /** Option never fails: it is the parser's success, or the default at the start position. */
  lemma {:induction false} OptionSpec<T>(p: Parser<T>, default: T, c: Config, pos: nat)
    ensures Option(p, default)(c, pos).Ok?
    ensures p(c, pos).Ok? ==> Option(p, default)(c, pos) == p(c, pos)
    ensures p(c, pos).Err? ==> Option(p, default)(c, pos) == Ok(c, pos, default)
  {
  }

  /** Lookahead keeps the start position, so the same parser can re-match from there. */
  lemma {:induction false} LookaheadSpec<T>(p: Parser<T>, c: Config, pos: nat)
    ensures Lookahead(p)(c, pos).Ok? <==> p(c, pos).Ok?
    ensures Lookahead(p)(c, pos).Ok? ==>
              Lookahead(p)(c, pos) == Ok(p(c, pos).config, pos, p(c, pos).value)
    ensures Lookahead(p)(c, pos).Err? ==> Lookahead(p)(c, pos) == p(c, pos)
  {
  }

  /** Not succeeds exactly when the parser fails, and never advances. */
  lemma {:induction false} NotSpec<T>(p: Parser<T>, default: T, c: Config, pos: nat)
    ensures Not(p, default)(c, pos).Ok? <==> p(c, pos).Err?
    ensures Not(p, default)(c, pos).Ok? ==> Not(p, default)(c, pos) == Ok(c, pos, default)
    ensures Not(p, default)(c, pos).Err? ==> Not(p, default)(c, pos).message == "Unexpected match"
  {
  }

  /** Error rewriting changes only the message of a failure. */
  lemma {:induction false} SelectErrorSpec<T>(p: Parser<T>, f: string -> string, c: Config, pos: nat)
    ensures p(c, pos).Ok? ==> SelectError(p, f)(c, pos) == p(c, pos)
    ensures p(c, pos).Err? ==> SelectError(p, f)(c, pos) == Err(f(p(c, pos).message))
  {
  }

  /** ChangeError replaces the message of a failure with the given one and leaves successes alone. */
  lemma {:induction false} ChangeErrorSpec<T>(p: Parser<T>, message: string, c: Config, pos: nat)
    ensures p(c, pos).Ok? ==> ChangeError(p, message)(c, pos) == p(c, pos)
    ensures p(c, pos).Err? ==> ChangeError(p, message)(c, pos) == Err(message)
  {
  }

  /** MatchIf succeeds exactly when the parser succeeds with a value meeting the predicate. */
  lemma {:induction false} MatchIfSpec<T>(p: Parser<T>, pred: T -> bool, c: Config, pos: nat)
    ensures MatchIf(p, pred)(c, pos).Ok? <==> p(c, pos).Ok? && pred(p(c, pos).value)
    ensures MatchIf(p, pred)(c, pos).Ok? ==> MatchIf(p, pred)(c, pos) == p(c, pos)
    ensures p(c, pos).Ok? && !pred(p(c, pos).value) ==>
              MatchIf(p, pred)(c, pos) == Err("Value is not matched")
  {
  }

  // ----- Every combinator preserves Keeps -----

  lemma {:induction false} PrimitivesKeep<T>(a: string, message: string, v: T)
    ensures Keeps(IgnoreCaseMsg(a, message))
    ensures Keeps(EndMsg(message))
    ensures Keeps(ToParser(v))
    ensures Keeps(GetPosition())
  {
  }

  lemma {:induction false} CombinatorsKeep<T, U>(p: Parser<T>, q: Parser<T>, f: T -> U, g: string -> string,
                              pred: T -> bool, default: T)
    requires Keeps(p) && Keeps(q)
    ensures Keeps(Select(p, f)) && Keeps(SelectError(p, g)) && Keeps(Choice(p, q))
    ensures Keeps(Option(p, default)) && Keeps(Lookahead(p)) && Keeps(Not(p, default))
    ensures Keeps(MatchIf(p, pred))
  {
  }

  lemma {:induction false} SelectManyKeeps<T, U>(p: Parser<T>, m: T -> Parser<U>)
    requires Keeps(p)
    requires forall v :: Keeps(m(v))
    ensures Keeps(SelectMany(p, m))
    ensures Advancing(p) ==> Advancing(SelectMany(p, m))
  {
    forall c: Config, pos: nat | SelectMany(p, m)(c, pos).Ok?
      ensures SelectMany(p, m)(c, pos).config == c
      ensures pos <= SelectMany(p, m)(c, pos).pos <= Max(pos, |c.subject|)
      ensures Advancing(p) ==> pos < SelectMany(p, m)(c, pos).pos
    {
      BindStep(p, m, c, pos);
    }
  }

  lemma {:induction false} BindStep<T, U>(p: Parser<T>, m: T -> Parser<U>, c: Config, pos: nat)
    requires Keeps(p)
    requires forall v :: Keeps(m(v))
    requires SelectMany(p, m)(c, pos).Ok?
    ensures SelectMany(p, m)(c, pos).config == c
    ensures p(c, pos).Ok? && p(c, pos).pos <= SelectMany(p, m)(c, pos).pos <= Max(pos, |c.subject|)
  {
    var r1 := p(c, pos);
    KeepsAt(m, r1);
    assert m(r1.value)(r1.config, r1.pos) == SelectMany(p, m)(c, pos);
  }

  lemma {:induction false} KeepsAt<T, U>(m: T -> Parser<U>, r: Result<T>)
    requires forall v :: Keeps(m(v))
    requires r.Ok?
    ensures Keeps(m(r.value))
  {
  }

  lemma {:induction false} SelectAdvances<T, U>(p: Parser<T>, f: T -> U)
    requires Advancing(p)
    ensures Advancing(Select(p, f))
  {
  }

  lemma {:induction false} ChoiceAdvances<T>(p: Parser<T>, q: Parser<T>)
    requires Advancing(p) && Advancing(q)
    ensures Advancing(Choice(p, q))
  {
  }

  lemma {:induction false} MatchIfAdvances<T>(p: Parser<T>, pred: T -> bool)
    requires Advancing(p)
    ensures Advancing(MatchIf(p, pred))
  {
  }
}
