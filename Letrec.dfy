/**
 * Recursive grammars from MonadPrimusParser.cs (Letrec1, Letrec2, Letrec3).
 *
 * The source hands the builder function a "delay" parser that, on its first
 * call, builds the real parser by applying the builder to the delay parsers
 * themselves, stores it in a memo cell and from then on delegates to it.
 * A parser that refers to itself cannot be written as a Dafny value, so the
 * delay parser handed to the builder is approximated by the builder unfolded
 * a bounded number of times (the recursion depth the grammar may reach);
 * the memo cell and its write-once behaviour are modelled by a class.
 */
module Letrec {
  import opened Wrappers
  import opened ParserCore

  /** The parser reached when the recursion bound is exhausted. */
  function Exhausted<T>(): Parser<T>
  {
    (c: Config, pos: nat) => Err("Recursion depth exhausted")
  }

  /** The builder applied n times to the exhausted parser. */
  function Unfold1<T>(func: Parser<T> -> Parser<T>, n: nat): Parser<T>
  {
    if n == 0 then Exhausted() else func(Unfold1(func, n - 1))
  }

  /** The two mutually recursive parsers, unfolded n times. */
  function Unfold2<T, U>(func1: (Parser<T>, Parser<U>) -> Parser<T>,
                         func2: (Parser<T>, Parser<U>) -> Parser<U>, n: nat): (Parser<T>, Parser<U>)
  {
    if n == 0 then (Exhausted(), Exhausted())
    else
      var (a, b) := Unfold2(func1, func2, n - 1);
      (func1(a, b), func2(a, b))
  }

  /** The three mutually recursive parsers, unfolded n times. */
  function Unfold3<T, U, V>(func1: (Parser<T>, Parser<U>, Parser<V>) -> Parser<T>,
                            func2: (Parser<T>, Parser<U>, Parser<V>) -> Parser<U>,
                            func3: (Parser<T>, Parser<U>, Parser<V>) -> Parser<V>,
                            n: nat): (Parser<T>, Parser<U>, Parser<V>)
  {
    if n == 0 then (Exhausted(), Exhausted(), Exhausted())
    else
      var (a, b, e) := Unfold3(func1, func2, func3, n - 1);
      (func1(a, b, e), func2(a, b, e), func3(a, b, e))
  }

  /** A builder that turns keeping parsers into a keeping parser yields keeping unfoldings. */
  lemma {:induction false} Unfold1Keeps<T>(func: Parser<T> -> Parser<T>, n: nat)
    requires forall q :: Keeps(q) ==> Keeps(func(q))
    ensures Keeps(Unfold1(func, n))
  {
    if n > 0 {
      Unfold1Keeps(func, n - 1);
      UnfoldStep(func, Unfold1(func, n - 1));
    }
  }

  lemma {:induction false} UnfoldStep<T>(func: Parser<T> -> Parser<T>, q: Parser<T>)
    requires forall q :: Keeps(q) ==> Keeps(func(q))
    requires Keeps(q)
    ensures Keeps(func(q))
  {
  }

  /** One recursive nonterminal with its write-once memo cell. */
  class Letrec1<T> {
    const func: Parser<T> -> Parser<T>
    const depth: nat
    var memo: Option<Parser<T>>
    ghost var builds: nat

    /** The parser the memo cell holds once built. */
    function Built(): Parser<T>
    {
      func(Unfold1(func, depth))
    }

    ghost predicate Valid()
      reads this
    {
      (memo.None? <==> builds == 0) && builds <= 1 && (memo.Some? ==> memo.value == Built())
    }

    constructor (func: Parser<T> -> Parser<T>, depth: nat)
      ensures Valid() && this.func == func && this.depth == depth
      ensures memo == None && builds == 0
    {
      this.func := func;
      this.depth := depth;
      memo := None;
      builds := 0;
    }

    /** The delay parser: builds the grammar on the first call only, then delegates to it. */
    method Invoke(c: Config, pos: nat) returns (r: Result<T>)
      requires Valid()
      modifies this
      ensures Valid()
      ensures memo == Some(Built()) && builds == 1
      ensures old(memo).Some? ==> builds == old(builds)
      ensures r == Built()(c, pos)
    {
      if memo.None? {
        memo := Some(func(Unfold1(func, depth)));
        builds := builds + 1;
      }
      r := memo.value(c, pos);
    }
  }

  /** Two mutually recursive nonterminals, each with its memo cell; the first is the grammar. */
  class Letrec2<T, U> {
    const func1: (Parser<T>, Parser<U>) -> Parser<T>
    const func2: (Parser<T>, Parser<U>) -> Parser<U>
    const depth: nat
    var memo1: Option<Parser<T>>
    var memo2: Option<Parser<U>>
    ghost var builds1: nat
    ghost var builds2: nat

    function Built1(): Parser<T>
    {
      Unfold2(func1, func2, depth + 1).0
    }

    function Built2(): Parser<U>
    {
      Unfold2(func1, func2, depth + 1).1
    }

    ghost predicate Valid()
      reads this
    {
      (memo1.None? <==> builds1 == 0) && builds1 <= 1 && (memo1.Some? ==> memo1.value == Built1()) &&
      (memo2.None? <==> builds2 == 0) && builds2 <= 1 && (memo2.Some? ==> memo2.value == Built2())
    }

    constructor (func1: (Parser<T>, Parser<U>) -> Parser<T>, func2: (Parser<T>, Parser<U>) -> Parser<U>, depth: nat)
      ensures Valid() && this.func1 == func1 && this.func2 == func2 && this.depth == depth
      ensures memo1 == None && memo2 == None
    {
      this.func1 := func1;
      this.func2 := func2;
      this.depth := depth;
      memo1, memo2 := None, None;
      builds1, builds2 := 0, 0;
    }

    method Invoke1(c: Config, pos: nat) returns (r: Result<T>)
      requires Valid()
      modifies this
      ensures Valid()
      ensures memo1 == Some(Built1()) && builds1 == 1
      ensures memo2 == old(memo2) && builds2 == old(builds2)
      ensures r == Built1()(c, pos)
    {
      if memo1.None? {
        var (a, b) := Unfold2(func1, func2, depth);
        memo1 := Some(func1(a, b));
        builds1 := builds1 + 1;
      }
      r := memo1.value(c, pos);
    }

    method Invoke2(c: Config, pos: nat) returns (r: Result<U>)
      requires Valid()
      modifies this
      ensures Valid()
      ensures memo2 == Some(Built2()) && builds2 == 1
      ensures memo1 == old(memo1) && builds1 == old(builds1)
      ensures r == Built2()(c, pos)
    {
      if memo2.None? {
        var (a, b) := Unfold2(func1, func2, depth);
        memo2 := Some(func2(a, b));
        builds2 := builds2 + 1;
      }
      r := memo2.value(c, pos);
    }
  }

  /** Three mutually recursive nonterminals; the first is the grammar. */
  class Letrec3<T, U, V> {
    const func1: (Parser<T>, Parser<U>, Parser<V>) -> Parser<T>
    const func2: (Parser<T>, Parser<U>, Parser<V>) -> Parser<U>
    const func3: (Parser<T>, Parser<U>, Parser<V>) -> Parser<V>
    const depth: nat
    var memo1: Option<Parser<T>>
    var memo2: Option<Parser<U>>
    var memo3: Option<Parser<V>>
    ghost var builds: (nat, nat, nat)

    function Built(): (Parser<T>, Parser<U>, Parser<V>)
    {
      Unfold3(func1, func2, func3, depth + 1)
    }

    ghost predicate Valid()
      reads this
    {
      (memo1.None? <==> builds.0 == 0) && builds.0 <= 1 && (memo1.Some? ==> memo1.value == Built().0) &&
      (memo2.None? <==> builds.1 == 0) && builds.1 <= 1 && (memo2.Some? ==> memo2.value == Built().1) &&
      (memo3.None? <==> builds.2 == 0) && builds.2 <= 1 && (memo3.Some? ==> memo3.value == Built().2)
    }

    constructor (func1: (Parser<T>, Parser<U>, Parser<V>) -> Parser<T>,
                 func2: (Parser<T>, Parser<U>, Parser<V>) -> Parser<U>,
                 func3: (Parser<T>, Parser<U>, Parser<V>) -> Parser<V>, depth: nat)
      ensures Valid() && this.func1 == func1 && this.func2 == func2 && this.func3 == func3
      ensures this.depth == depth && memo1 == None && memo2 == None && memo3 == None
    {
      this.func1, this.func2, this.func3 := func1, func2, func3;
      this.depth := depth;
      memo1, memo2, memo3 := None, None, None;
      builds := (0, 0, 0);
    }

    method Invoke1(c: Config, pos: nat) returns (r: Result<T>)
      requires Valid()
      modifies this
      ensures Valid() && memo1 == Some(Built().0) && builds.0 == 1
      ensures memo2 == old(memo2) && memo3 == old(memo3) && builds.1 == old(builds.1) && builds.2 == old(builds.2)
      ensures r == Built().0(c, pos)
    {
      if memo1.None? {
        var (a, b, e) := Unfold3(func1, func2, func3, depth);
        memo1 := Some(func1(a, b, e));
        builds := (builds.0 + 1, builds.1, builds.2);
      }
      r := memo1.value(c, pos);
    }

    method Invoke2(c: Config, pos: nat) returns (r: Result<U>)
      requires Valid()
      modifies this
      ensures Valid() && memo2 == Some(Built().1) && builds.1 == 1
      ensures memo1 == old(memo1) && memo3 == old(memo3) && builds.0 == old(builds.0) && builds.2 == old(builds.2)
      ensures r == Built().1(c, pos)
    {
      if memo2.None? {
        var (a, b, e) := Unfold3(func1, func2, func3, depth);
        memo2 := Some(func2(a, b, e));
        builds := (builds.0, builds.1 + 1, builds.2);
      }
      r := memo2.value(c, pos);
    }

    method Invoke3(c: Config, pos: nat) returns (r: Result<V>)
      requires Valid()
      modifies this
      ensures Valid() && memo3 == Some(Built().2) && builds.2 == 1
      ensures memo1 == old(memo1) && memo2 == old(memo2) && builds.0 == old(builds.0) && builds.1 == old(builds.1)
      ensures r == Built().2(c, pos)
    {
      if memo3.None? {
        var (a, b, e) := Unfold3(func1, func2, func3, depth);
        memo3 := Some(func3(a, b, e));
        builds := (builds.0, builds.1, builds.2 + 1);
      }
      r := memo3.value(c, pos);
    }
  }

  /** The builders of Letrec1 and Letrec2 agree: Letrec1 is Letrec2 with an unused second nonterminal. */
  lemma {:induction false} Unfold2Extends1<T>(func: Parser<T> -> Parser<T>, n: nat)
    ensures Unfold2((a: Parser<T>, b: Parser<T>) => func(a), (a: Parser<T>, b: Parser<T>) => b, n).0 == Unfold1(func, n)
  {
    if n > 0 {
      Unfold2Extends1(func, n - 1);
    }
  }
}
