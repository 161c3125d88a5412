/**
 * Delimited and repeated parsing from MonadPrimusParser.cs: Delimit (folds
 * from the left), DelimitRight (folds from the right), OneOrMore and
 * ZeroOrMore.
 *
 * The source defines each repetition as a parser that refers to itself
 * through a closure; here the repetition after the first element is a
 * function recursive on the position, which terminates because every round
 * consumes input. The source requires the same of its callers: a round that
 * consumes nothing makes it recurse forever.
 */
module Repetition {
  import opened Wrappers
  import opened ParserCore

  /** A round of the repetition, a delimiter and then an element, consumes input whenever both match. */
  ghost predicate RoundAdvances<T, D>(p: Parser<T>, d: Parser<D>) {
    forall c: Config, pos: nat :: d(c, pos).Ok? && p(d(c, pos).config, d(c, pos).pos).Ok? ==>
      pos < p(d(c, pos).config, d(c, pos).pos).pos
  }

  /**
   * What a delimited repetition needs: an element and a delimiter that keep
   * the configuration, and rounds that consume input. Either the element or
   * the delimiter may match empty, as long as the two together do not.
   */
  ghost predicate Repeatable<T, D>(p: Parser<T>, d: Parser<D>) {
    Keeps(p) && Keeps(d) && RoundAdvances(p, d)
  }

  /** An element that consumes makes every delimiter that keeps repeatable. */
  lemma {:induction false} AdvancingRepeatable<T, D>(p: Parser<T>, d: Parser<D>)
    requires Advancing(p) && Keeps(d)
    ensures Repeatable(p, d)
  {
    forall c: Config, pos: nat | d(c, pos).Ok? && p(d(c, pos).config, d(c, pos).pos).Ok?
      ensures pos < p(d(c, pos).config, d(c, pos).pos).pos
    {
      assert pos <= d(c, pos).pos;
    }
  }

  /** A non-empty delimiter makes every element that keeps repeatable, even one that matches empty. */
  lemma {:induction false} DelimiterRepeatable<T>(p: Parser<T>, a: string)
    requires Keeps(p) && |a| > 0
    ensures Repeatable(p, Str(a))
  {
    StrLiteralKeeps(a);
    forall c: Config, pos: nat | Str(a)(c, pos).Ok? && p(Str(a)(c, pos).config, Str(a)(c, pos).pos).Ok?
      ensures pos < p(Str(a)(c, pos).config, Str(a)(c, pos).pos).pos
    {
      var r := Str(a)(c, pos);
      assert pos < r.pos;
      assert r.pos <= p(r.config, r.pos).pos;
    }
  }

  // ----- The chain of (delimiter, element) pairs after the first element -----

  /**
   * The maximal list of delimiter values and elements that follow position
   * pos: a pair is taken when the delimiter and then an element both match.
   */
  function Chain<T, D>(p: Parser<T>, d: Parser<D>, c: Config, pos: nat): (links: seq<(D, T)>)
    requires Repeatable(p, d)
    decreases |c.subject| - pos
  {
    match d(c, pos)
    case Err(_) => []
    case Ok(c1, pos1, dv) =>
      match p(c1, pos1)
      case Err(_) => []
      case Ok(c2, pos2, a) => [(dv, a)] + Chain(p, d, c2, pos2)
  }

  /** Where the chain that follows pos ends. */
  function ChainEnd<T, D>(p: Parser<T>, d: Parser<D>, c: Config, pos: nat): (e: nat)
    requires Repeatable(p, d)
    ensures pos <= e <= Max(pos, |c.subject|)
    decreases |c.subject| - pos
  {
    match d(c, pos)
    case Err(_) => pos
    case Ok(c1, pos1, dv) =>
      match p(c1, pos1)
      case Err(_) => pos
      case Ok(c2, pos2, a) => ChainEnd(p, d, c2, pos2)
  }

  /** One step of the chain: a delimiter and an element, or the end of the chain. */
  lemma {:induction false} ChainStep<T, D>(p: Parser<T>, d: Parser<D>, c: Config, pos: nat)
    requires Repeatable(p, d)
    ensures d(c, pos).Ok? && p(c, d(c, pos).pos).Ok? ==>
              var pos2 := p(c, d(c, pos).pos).pos;
              Chain(p, d, c, pos) == [(d(c, pos).value, p(c, d(c, pos).pos).value)] + Chain(p, d, c, pos2) &&
              ChainEnd(p, d, c, pos) == ChainEnd(p, d, c, pos2)
    ensures d(c, pos).Err? || p(c, d(c, pos).pos).Err? ==> Chain(p, d, c, pos) == [] && ChainEnd(p, d, c, pos) == pos
  {
  }

  function FoldLeft<T, D>(agg: (T, D, T) -> T, acc: T, links: seq<(D, T)>): T
  {
    if links == [] then acc else FoldLeft(agg, agg(acc, links[0].0, links[0].1), links[1..])
  }

  function FoldRight<T, D>(agg: (T, D, T) -> T, first: T, links: seq<(D, T)>): T
  {
    if links == [] then first else agg(first, links[0].0, FoldRight(agg, links[0].1, links[1..]))
  }

  // ----- Delimit -----

  /** The repetition after an element whose value (so far) is acc. */
  function DelimitRestAt<T, D>(p: Parser<T>, d: Parser<D>, agg: (T, D, T) -> T, acc: T, c: Config, pos: nat): (r: Result<T>)
    requires Repeatable(p, d)
    decreases |c.subject| - pos
  {
    match d(c, pos)
    case Err(_) => Ok(c, pos, acc)
    case Ok(c1, pos1, dv) =>
      match p(c1, pos1)
      case Err(_) => Ok(c, pos, acc)
      case Ok(c2, pos2, a) =>
        var rest := DelimitRestAt(p, d, agg, agg(acc, dv, a), c2, pos2);
        if rest.Err? then Ok(c, pos, acc) else rest
  }

  function DelimitRest<T, D>(p: Parser<T>, d: Parser<D>, agg: (T, D, T) -> T, acc: T): Parser<T>
    requires Repeatable(p, d)
  {
    (c: Config, pos: nat) => DelimitRestAt(p, d, agg, acc, c, pos)
  }

  function Delimit<T, D>(p: Parser<T>, d: Parser<D>, agg: (T, D, T) -> T): Parser<T>
    requires Repeatable(p, d)
  {
    SelectMany(p, (a: T) => DelimitRest(p, d, agg, a))
  }

  /** The rest of a delimited repetition is the source's recursive combinator equation. */
  lemma {:induction false} DelimitRestUnfolds<T, D>(p: Parser<T>, d: Parser<D>, agg: (T, D, T) -> T, acc: T, c: Config, pos: nat)
    requires Repeatable(p, d)
    ensures DelimitRest(p, d, agg, acc)(c, pos) ==
            Choice(SelectMany(d, (dv: D) => SelectMany(p, (a: T) => DelimitRest(p, d, agg, agg(acc, dv, a)))),
                   ToParser(acc))(c, pos)
  {
  }

  /** The rest of the repetition always succeeds: it folds the chain from the left, ending where the chain ends. */
  lemma {:induction false} DelimitRestIsFoldLeft<T, D>(p: Parser<T>, d: Parser<D>, agg: (T, D, T) -> T,
                                                       acc: T, c: Config, pos: nat)
    requires Repeatable(p, d)
    ensures DelimitRestAt(p, d, agg, acc, c, pos) ==
            Ok(c, ChainEnd(p, d, c, pos), FoldLeft(agg, acc, Chain(p, d, c, pos)))
    decreases |c.subject| - pos
  {
    match d(c, pos)
    case Err(_) =>
    case Ok(c1, pos1, dv) =>
      match p(c1, pos1)
      case Err(_) =>
      case Ok(c2, pos2, a) =>
        DelimitRestIsFoldLeft(p, d, agg, agg(acc, dv, a), c2, pos2);
        var links := Chain(p, d, c2, pos2);
        assert Chain(p, d, c, pos) == [(dv, a)] + links;
        assert ([(dv, a)] + links)[1..] == links;
  }

  /** Delimit: the first element, then the left fold of the chain that follows it. */
  lemma {:induction false} DelimitIsFoldLeft<T, D>(p: Parser<T>, d: Parser<D>, agg: (T, D, T) -> T, c: Config, pos: nat)
    requires Repeatable(p, d)
    ensures p(c, pos).Err? ==> Delimit(p, d, agg)(c, pos) == Err(p(c, pos).message)
    ensures p(c, pos).Ok? ==>
              Delimit(p, d, agg)(c, pos) ==
              Ok(c, ChainEnd(p, d, c, p(c, pos).pos), FoldLeft(agg, p(c, pos).value, Chain(p, d, c, p(c, pos).pos)))
  {
    match p(c, pos)
    case Err(_) =>
    case Ok(c1, q, a) =>
      DelimitRestIsFoldLeft(p, d, agg, a, c1, q);
  }

  /** Delimit keeps the configuration, and consumes input when its first element does. */
  lemma {:induction false} DelimitKeeps<T, D>(p: Parser<T>, d: Parser<D>, agg: (T, D, T) -> T)
    requires Repeatable(p, d)
    ensures Keeps(Delimit(p, d, agg))
    ensures Advancing(p) ==> Advancing(Delimit(p, d, agg))
  {
    forall c: Config, pos: nat | Delimit(p, d, agg)(c, pos).Ok?
      ensures Delimit(p, d, agg)(c, pos).config == c
      ensures p(c, pos).pos <= Delimit(p, d, agg)(c, pos).pos <= Max(pos, |c.subject|)
      ensures pos <= p(c, pos).pos
    {
      DelimitIsFoldLeft(p, d, agg, c, pos);
      var q := p(c, pos).pos;
      assert ChainEnd(p, d, c, q) <= Max(q, |c.subject|);
    }
  }

  // ----- DelimitRight, as the repetition is evidently meant to behave -----

  function DelimitRightRestAt<T, D>(p: Parser<T>, d: Parser<D>, agg: (T, D, T) -> T, first: T, c: Config, pos: nat): (r: Result<T>)
    requires Repeatable(p, d)
    decreases |c.subject| - pos
  {
    match d(c, pos)
    case Err(_) => Ok(c, pos, first)
    case Ok(c1, pos1, dv) =>
      match p(c1, pos1)
      case Err(_) => Ok(c, pos, first)
      case Ok(c2, pos2, a) =>
        match DelimitRightRestAt(p, d, agg, a, c2, pos2)
        case Err(_) => Ok(c, pos, first)
        case Ok(c3, pos3, r) => Ok(c3, pos3, agg(first, dv, r))
  }

  function DelimitRightRest<T, D>(p: Parser<T>, d: Parser<D>, agg: (T, D, T) -> T, first: T): Parser<T>
    requires Repeatable(p, d)
  {
    (c: Config, pos: nat) => DelimitRightRestAt(p, d, agg, first, c, pos)
  }

  function DelimitRight<T, D>(p: Parser<T>, d: Parser<D>, agg: (T, D, T) -> T): Parser<T>
    requires Repeatable(p, d)
  {
    SelectMany(p, (a: T) => DelimitRightRest(p, d, agg, a))
  }

  /** The corrected rest is the source's equation with the fallback around the whole step. */
  lemma {:induction false} DelimitRightRestUnfolds<T, D>(p: Parser<T>, d: Parser<D>, agg: (T, D, T) -> T, first: T, c: Config, pos: nat)
    requires Repeatable(p, d)
    ensures DelimitRightRest(p, d, agg, first)(c, pos) ==
            Choice(SelectMany(d, (dv: D) =>
                     SelectMany(SelectMany(p, (a: T) => DelimitRightRest(p, d, agg, a)),
                                (r: T) => ToParser(agg(first, dv, r)))),
                   ToParser(first))(c, pos)
  {
  }

  /** The corrected rest folds the same chain as Delimit, from the right. */
  lemma {:induction false} DelimitRightRestIsFoldRight<T, D>(p: Parser<T>, d: Parser<D>, agg: (T, D, T) -> T,
                                                             first: T, c: Config, pos: nat)
    requires Repeatable(p, d)
    ensures DelimitRightRestAt(p, d, agg, first, c, pos) ==
            Ok(c, ChainEnd(p, d, c, pos), FoldRight(agg, first, Chain(p, d, c, pos)))
    decreases |c.subject| - pos
  {
    match d(c, pos)
    case Err(_) =>
    case Ok(c1, pos1, dv) =>
      match p(c1, pos1)
      case Err(_) =>
      case Ok(c2, pos2, a) =>
        DelimitRightRestIsFoldRight(p, d, agg, a, c2, pos2);
        var links := Chain(p, d, c2, pos2);
        assert Chain(p, d, c, pos) == [(dv, a)] + links;
        assert ([(dv, a)] + links)[1..] == links;
  }

  /** DelimitRight: the first element, then the right fold of the chain that follows it. */
  lemma {:induction false} DelimitRightIsFoldRight<T, D>(p: Parser<T>, d: Parser<D>, agg: (T, D, T) -> T, c: Config, pos: nat)
    requires Repeatable(p, d)
    ensures p(c, pos).Err? ==> DelimitRight(p, d, agg)(c, pos) == Err(p(c, pos).message)
    ensures p(c, pos).Ok? ==>
              DelimitRight(p, d, agg)(c, pos) ==
              Ok(c, ChainEnd(p, d, c, p(c, pos).pos), FoldRight(agg, p(c, pos).value, Chain(p, d, c, p(c, pos).pos)))
  {
    match p(c, pos)
    case Err(_) =>
    case Ok(c1, q, a) =>
      DelimitRightRestIsFoldRight(p, d, agg, a, c1, q);
  }

  /** Both directions consume the same input; with an associative aggregator they agree. */
  lemma {:induction false} FoldsAgree<T, D>(agg: (T, D, T) -> T, a: T, links: seq<(D, T)>)
    requires forall x, y, z, u, v :: agg(agg(x, u, y), v, z) == agg(x, u, agg(y, v, z))
    ensures FoldLeft(agg, a, links) == FoldRight(agg, a, links)
    decreases |links|
  {
    if links != [] {
      var (u, b) := links[0];
      FoldsAgree(agg, agg(a, u, b), links[1..]);
      FoldLeftShift(agg, a, u, b, links[1..]);
    }
  }

  /** Folding from the left after agg(a, u, b) equals agg(a, u, left fold from b). */
  lemma {:induction false} FoldLeftShift<T, D>(agg: (T, D, T) -> T, a: T, u: D, b: T, links: seq<(D, T)>)
    requires forall x, y, z, u, v :: agg(agg(x, u, y), v, z) == agg(x, u, agg(y, v, z))
    ensures FoldLeft(agg, agg(a, u, b), links) == agg(a, u, FoldLeft(agg, b, links))
    ensures FoldRight(agg, a, [(u, b)] + links) == agg(a, u, FoldRight(agg, b, links))
    decreases |links|
  {
    assert ([(u, b)] + links)[1..] == links;
    if links != [] {
      var (v, e) := links[0];
      FoldLeftShift(agg, agg(a, u, b), v, e, links[1..]);
      FoldLeftShift(agg, b, v, e, links[1..]);
      assert agg(agg(a, u, b), v, e) == agg(a, u, agg(b, v, e));
      FoldLeftShift(agg, a, u, agg(b, v, e), links[1..]);
    }
  }

  // ----- DelimitRight as written in the source -----

  /**
   * The source places the fallback to the accumulated value inside the
   * delimiter's continuation, so the fallback runs after the delimiter has
   * been consumed, and a missing delimiter is a failure.
   */
  function DelimitRightRestAsWrittenAt<T, D>(p: Parser<T>, d: Parser<D>, agg: (T, D, T) -> T, first: T,
                                             c: Config, pos: nat): (r: Result<T>)
    requires Repeatable(p, d)
    decreases |c.subject| - pos
  {
    match d(c, pos)
    case Err(m) => Err(m)
    case Ok(c1, pos1, dv) =>
      var step :=
        match p(c1, pos1)
        case Err(m) => Err(m)
        case Ok(c2, pos2, a) =>
          match DelimitRightRestAsWrittenAt(p, d, agg, a, c2, pos2)
          case Err(m) => Err(m)
          case Ok(c3, pos3, r) => Ok(c3, pos3, agg(first, dv, r));
      if step.Err? then Ok(c1, pos1, first) else step
  }

  function DelimitRightRestAsWritten<T, D>(p: Parser<T>, d: Parser<D>, agg: (T, D, T) -> T, first: T): Parser<T>
    requires Repeatable(p, d)
  {
    (c: Config, pos: nat) => DelimitRightRestAsWrittenAt(p, d, agg, first, c, pos)
  }

  function DelimitRightAsWritten<T, D>(p: Parser<T>, d: Parser<D>, agg: (T, D, T) -> T): Parser<T>
    requires Repeatable(p, d)
  {
    SelectMany(p, (a: T) => DelimitRightRestAsWritten(p, d, agg, a))
  }

  /** The as-written rest is the source's equation, with Choice inside the delimiter's continuation. */
  lemma {:induction false} DelimitRightRestAsWrittenUnfolds<T, D>(p: Parser<T>, d: Parser<D>, agg: (T, D, T) -> T, first: T,
                                               c: Config, pos: nat)
    requires Repeatable(p, d)
    ensures DelimitRightRestAsWritten(p, d, agg, first)(c, pos) ==
            SelectMany(d, (dv: D) =>
              Choice(SelectMany(SelectMany(p, (a: T) => DelimitRightRestAsWritten(p, d, agg, a)),
                                (r: T) => ToParser(agg(first, dv, r))),
                     ToParser(first)))(c, pos)
  {
  }

  /**
   * As written, a single element with no delimiter after it is rejected with
   * the delimiter's message, where the corrected repetition yields it.
   */
  lemma {:induction false} AsWrittenRejectsSingleElement<T, D>(p: Parser<T>, d: Parser<D>, agg: (T, D, T) -> T, c: Config, pos: nat)
    requires Repeatable(p, d)
    requires p(c, pos).Ok? && d(c, p(c, pos).pos).Err?
    ensures DelimitRightAsWritten(p, d, agg)(c, pos) == Err(d(c, p(c, pos).pos).message)
    ensures DelimitRight(p, d, agg)(c, pos) == Ok(c, p(c, pos).pos, p(c, pos).value)
  {
  }

  /**
   * As written, two elements separated by a delimiter and not followed by
   * another delimiter yield only the first element, positioned after the
   * delimiter: the second element is dropped. The corrected repetition
   * aggregates both and ends after the second.
   */
  lemma {:induction false} AsWrittenDropsLastElement<T, D>(p: Parser<T>, d: Parser<D>, agg: (T, D, T) -> T, c: Config, pos: nat)
    requires Repeatable(p, d)
    requires p(c, pos).Ok?
    requires var q := p(c, pos).pos;
             d(c, q).Ok? && p(c, d(c, q).pos).Ok? && d(c, p(c, d(c, q).pos).pos).Err?
    ensures var q := p(c, pos).pos;
            var q1 := d(c, q).pos;
            DelimitRightAsWritten(p, d, agg)(c, pos) == Ok(c, q1, p(c, pos).value)
    ensures var q := p(c, pos).pos;
            var q1 := d(c, q).pos;
            var q2 := p(c, q1).pos;
            DelimitRight(p, d, agg)(c, pos) == Ok(c, q2, agg(p(c, pos).value, d(c, q).value, p(c, q1).value))
  {
    var a1 := p(c, pos).value;
    var q := p(c, pos).pos;
    var q1 := d(c, q).pos;
    var q2 := p(c, q1).pos;
    assert d(c, q).config == c && p(c, q1).config == c;
    assert DelimitRightRestAsWrittenAt(p, d, agg, p(c, q1).value, c, q2).Err?;
    assert DelimitRightRestAsWrittenAt(p, d, agg, a1, c, q) == Ok(c, q1, a1);
    assert DelimitRightRestAt(p, d, agg, p(c, q1).value, c, q2) == Ok(c, q2, p(c, q1).value);
  }

  /** The same, with the positions and values of the two elements and the delimiter named. */
  lemma {:induction false} AsWrittenDropsLastOf<T, D>(p: Parser<T>, d: Parser<D>, agg: (T, D, T) -> T, c: Config,
                                                    pos: nat, q: nat, q1: nat, q2: nat, a1: T, dv: D, a2: T)
    requires Repeatable(p, d)
    requires p(c, pos) == Ok(c, q, a1) && d(c, q) == Ok(c, q1, dv)
    requires p(c, q1) == Ok(c, q2, a2) && d(c, q2).Err?
    ensures DelimitRightAsWritten(p, d, agg)(c, pos) == Ok(c, q1, a1)
    ensures DelimitRight(p, d, agg)(c, pos) == Ok(c, q2, agg(a1, dv, a2))
  {
    AsWrittenDropsLastElement(p, d, agg, c, pos);
  }

  // ----- OneOrMore and ZeroOrMore -----

  /** The aggregator of OneOrMore, which ignores the empty delimiter's value. */
  function Skipping<T>(agg: (T, T) -> T): (T, string, T) -> T
  {
    (a: T, e: string, b: T) => agg(a, b)
  }

  function OneOrMore<T>(p: Parser<T>, agg: (T, T) -> T): Parser<T>
    requires Advancing(p)
  {
    StrLiteralKeeps("");
    AdvancingRepeatable(p, Str(""));
    Delimit(p, Str(""), Skipping(agg))
  }

  function ZeroOrMore<T>(p: Parser<T>, agg: (T, T) -> T, default: T): Parser<T>
    requires Advancing(p)
  {
    Choice(OneOrMore(p, agg), Select(Str(""), (e: string) => default))
  }

  /** The empty literal matches everywhere, consuming only what the skip pattern matches. */
  lemma {:induction false} EmptyStrMatches(c: Config, pos: nat)
    requires pos <= |c.subject|
    ensures Str("")(c, pos) == Ok(c, SkipFrom(c.subject, pos, c.skip), "")
  {
  }

  /** OneOrMore fails exactly when the first element fails, with that element's message. */
  lemma {:induction false} OneOrMoreNeedsOne<T>(p: Parser<T>, agg: (T, T) -> T, c: Config, pos: nat)
    requires Advancing(p)
    ensures OneOrMore(p, agg)(c, pos).Err? <==> p(c, pos).Err?
    ensures p(c, pos).Err? ==> OneOrMore(p, agg)(c, pos) == Err(p(c, pos).message)
    ensures p(c, pos).Ok? ==> pos < OneOrMore(p, agg)(c, pos).pos
  {
    StrLiteralKeeps("");
    AdvancingRepeatable(p, Str(""));
    DelimitKeeps(p, Str(""), Skipping(agg));
  }

  /** ZeroOrMore never fails; when no element matches it yields the default after skipping. */
  lemma {:induction false} ZeroOrMoreSpec<T>(p: Parser<T>, agg: (T, T) -> T, default: T, c: Config, pos: nat)
    requires Advancing(p)
    requires pos <= |c.subject|
    ensures ZeroOrMore(p, agg, default)(c, pos).Ok?
    ensures p(c, pos).Err? ==>
              ZeroOrMore(p, agg, default)(c, pos) == Ok(c, SkipFrom(c.subject, pos, c.skip), default)
    ensures p(c, pos).Ok? ==> ZeroOrMore(p, agg, default)(c, pos) == OneOrMore(p, agg)(c, pos)
  {
    OneOrMoreNeedsOne(p, agg, c, pos);
  }
}
