/**
 * The generic monads of MonadPrimus.cs, one module per monad: identity,
 * maybe, either, state, reader, writer and continuation. Each has its unit
 * (ToIdentity, ToMaybe, ...), its map (Select), its bind (SelectMany) and
 * the comprehension form of bind (the three-argument SelectMany), and the
 * three monad laws the tests assert for each of them.
 *
 * The C# classes are immutable and become datatypes; the delegate types
 * (State, Reader, Cont) become Dafny function types, so the laws about them
 * are stated for every input the delegate is run on. A value the source
 * makes with default(A) is passed in explicitly.
 */
module IdentityMonad {
  datatype Identity<T> = Identity(value: T)

  function ToIdentity<T>(value: T): Identity<T> { Identity(value) }

  function Select<T, U>(m: Identity<T>, k: T -> U): Identity<U> { ToIdentity(k(m.value)) }

  function SelectMany<T, U>(m: Identity<T>, k: T -> Identity<U>): Identity<U> { k(m.value) }

  function SelectMany3<T, U, V>(m: Identity<T>, k: T -> Identity<U>, s: (T, U) -> V): Identity<V>
  {
    SelectMany(m, t => SelectMany(k(t), u => ToIdentity(s(t, u))))
  }

  /** Equality of wrapped values (null payloads are values of the payload type here). */
  predicate MonadEqual<T(==)>(m1: Identity<T>, m2: Identity<T>) { m1.value == m2.value }

  lemma {:induction false} MonadEqualIsEquality<T>(m1: Identity<T>, m2: Identity<T>)
    ensures MonadEqual(m1, m2) <==> m1 == m2
  {
  }

  /** The comprehension form applies s to both values. */
  lemma {:induction false} SelectMany3Values<T, U, V>(m: Identity<T>, k: T -> Identity<U>, s: (T, U) -> V)
    ensures SelectMany3(m, k, s).value == s(m.value, k(m.value).value)
  {
  }

  lemma {:induction false} LeftIdentity<T, U>(v: T, f: T -> Identity<U>)
    ensures SelectMany(ToIdentity(v), f) == f(v)
  {
  }

  lemma {:induction false} RightIdentity<T>(m: Identity<T>)
    ensures SelectMany(m, ToIdentity) == m
  {
  }

  lemma {:induction false} Associativity<T, U, V>(m: Identity<T>, f: T -> Identity<U>, g: U -> Identity<V>)
    ensures SelectMany(SelectMany(m, f), g) == SelectMany(m, x => SelectMany(f(x), g))
  {
  }
}

module MaybeMonad {
  datatype Maybe<T> = Nothing | Just(value: T)

  function ToMaybe<T>(value: T): Maybe<T> { Just(value) }

  predicate HasValue<T>(m: Maybe<T>) { m.Just? }

  /** Reading the value of Nothing is an error (InvalidOperationException). */
  function Value<T>(m: Maybe<T>): T
    requires HasValue(m)
  {
    m.value
  }

  /** m itself when it is Nothing or its value satisfies pred, Nothing otherwise. */
  function Where<T>(m: Maybe<T>, pred: T -> bool): (r: Maybe<T>)
    ensures r == m || r == Nothing
    ensures HasValue(r) <==> HasValue(m) && pred(m.value)
  {
    if !HasValue(m) || pred(Value(m)) then m else Nothing
  }

  predicate MonadEqual<T(==)>(m1: Maybe<T>, m2: Maybe<T>)
  {
    if HasValue(m1) && HasValue(m2) then Value(m1) == Value(m2)
    else !HasValue(m1) && !HasValue(m2)
  }

  function Select<T, U>(m: Maybe<T>, k: T -> U): Maybe<U>
  {
    if HasValue(m) then ToMaybe(k(Value(m))) else Nothing
  }

  function SelectMany<T, U>(m: Maybe<T>, k: T -> Maybe<U>): Maybe<U>
  {
    if HasValue(m) then k(Value(m)) else Nothing
  }

  function SelectMany3<T, U, V>(m: Maybe<T>, k: T -> Maybe<U>, s: (T, U) -> V): Maybe<V>
  {
    SelectMany(m, t => SelectMany(k(t), u => ToMaybe(s(t, u))))
  }

  /** MonadEqual is structural equality: both Nothing, or both values equal. */
  lemma {:induction false} MonadEqualIsEquality<T>(m1: Maybe<T>, m2: Maybe<T>)
    ensures MonadEqual(m1, m2) <==> m1 == m2
  {
  }

  /** Nothing passes through Select and SelectMany. */
  lemma {:induction false} NothingPropagates<T, U>(k: T -> U, f: T -> Maybe<U>)
    ensures Select(Nothing, k) == Nothing && SelectMany(Nothing, f) == Nothing
  {
  }

  /** Filtering twice with the same predicate is filtering once. */
  lemma {:induction false} WhereIdempotent<T>(m: Maybe<T>, pred: T -> bool)
    ensures Where(Where(m, pred), pred) == Where(m, pred)
  {
  }

  /** Select is bind followed by the unit. */
  lemma {:induction false} SelectIsBind<T, U>(m: Maybe<T>, k: T -> U)
    ensures Select(m, k) == SelectMany(m, x => ToMaybe(k(x)))
  {
  }

  /** The comprehension has a value exactly when both steps have one, and it is s of the two. */
  lemma {:induction false} SelectMany3Spec<T, U, V>(m: Maybe<T>, k: T -> Maybe<U>, s: (T, U) -> V)
    ensures HasValue(SelectMany3(m, k, s)) <==> HasValue(m) && HasValue(k(m.value))
    ensures HasValue(SelectMany3(m, k, s)) ==> Value(SelectMany3(m, k, s)) == s(m.value, k(m.value).value)
  {
    if HasValue(m) {
      var a := m.value;
      assert SelectMany3(m, k, s) == SelectMany(k(a), u => ToMaybe(s(a, u)));
      if HasValue(k(a)) {
        assert SelectMany(k(a), u => ToMaybe(s(a, u))) == Just(s(a, k(a).value));
      }
    }
  }

  lemma {:induction false} LeftIdentity<T, U>(v: T, f: T -> Maybe<U>)
    ensures SelectMany(ToMaybe(v), f) == f(v)
  {
  }

  lemma {:induction false} RightIdentity<T>(m: Maybe<T>)
    ensures SelectMany(m, ToMaybe) == m
  {
  }

  lemma {:induction false} Associativity<T, U, V>(m: Maybe<T>, f: T -> Maybe<U>, g: U -> Maybe<V>)
    ensures SelectMany(SelectMany(m, f), g) == SelectMany(m, x => SelectMany(f(x), g))
  {
  }
}

module EitherMonad {
  datatype Either<L, R> = Left(left: L) | Right(right: R)

  function ToEither<L, R>(value: R): Either<L, R> { Right(value) }

  predicate IsRight<L, R>(m: Either<L, R>) { m.Right? }

  /** This monad when it has a right value, the other one otherwise. */
  function Or<L, R>(m: Either<L, R>, other: Either<L, R>): (r: Either<L, R>)
    ensures IsRight(r) <==> IsRight(m) || IsRight(other)
    ensures r == m || r == other
    ensures IsRight(m) ==> r == m
    ensures !IsRight(m) ==> r == other
  {
    if IsRight(m) then m else other
  }

  /** False across sides; on the same side, equality of the payloads. */
  predicate MonadEqual<L(==), R(==)>(m1: Either<L, R>, m2: Either<L, R>)
  {
    if IsRight(m1) && IsRight(m2) then m1.right == m2.right
    else if !IsRight(m1) && !IsRight(m2) then m1.left == m2.left
    else false
  }

  function Select<L, R1, R2>(m: Either<L, R1>, k: R1 -> R2): Either<L, R2>
  {
    if IsRight(m) then ToEither(k(m.right)) else Left(m.left)
  }

  function SelectMany<L, R1, R2>(m: Either<L, R1>, k: R1 -> Either<L, R2>): Either<L, R2>
  {
    if !IsRight(m) then Left(m.left) else k(m.right)
  }

  /** Written out directly in the source, with its own short circuit for the second step. */
  function SelectMany3<L, R1, R2, R3>(m: Either<L, R1>, k: R1 -> Either<L, R2>, s: (R1, R2) -> R3): Either<L, R3>
  {
    if !IsRight(m) then Left(m.left)
    else
      var m2 := k(m.right);
      if !IsRight(m2) then Left(m2.left) else ToEither(s(m.right, m2.right))
  }

  lemma {:induction false} MonadEqualIsEquality<L, R>(m1: Either<L, R>, m2: Either<L, R>)
    ensures MonadEqual(m1, m2) <==> m1 == m2
  {
  }

  /** Values on different sides are never equal. */
  lemma {:induction false} SidesDiffer<L, R>(m1: Either<L, R>, m2: Either<L, R>)
    requires IsRight(m1) != IsRight(m2)
    ensures !MonadEqual(m1, m2)
  {
  }

  /** A Left passes unchanged through Select, SelectMany and the comprehension. */
  lemma {:induction false} LeftPropagates<L, R1, R2, R3>(x: L, k: R1 -> R2, f: R1 -> Either<L, R2>, s: (R1, R2) -> R3)
    ensures Select(Left(x), k) == Left(x)
    ensures SelectMany(Left(x), f) == Left(x)
    ensures SelectMany3(Left(x), f, s) == Left(x)
  {
  }

  /** The direct comprehension is bind followed by a map, as the other monads define it. */
  lemma {:induction false} SelectMany3IsBind<L, R1, R2, R3>(m: Either<L, R1>, k: R1 -> Either<L, R2>, s: (R1, R2) -> R3)
    ensures SelectMany3(m, k, s) == SelectMany(m, t => Select(k(t), u => s(t, u)))
  {
  }

  /** Or returns the first right value of a chain of alternatives. */
  lemma {:induction false} OrAssociative<L, R>(a: Either<L, R>, b: Either<L, R>, c: Either<L, R>)
    ensures Or(Or(a, b), c) == Or(a, Or(b, c))
  {
  }

  lemma {:induction false} LeftIdentity<L, R1, R2>(v: R1, f: R1 -> Either<L, R2>)
    ensures SelectMany(ToEither(v), f) == f(v)
  {
  }

  lemma {:induction false} RightIdentity<L, R>(m: Either<L, R>)
    ensures SelectMany(m, ToEither) == m
  {
  }

  lemma {:induction false} Associativity<L, R1, R2, R3>(m: Either<L, R1>, f: R1 -> Either<L, R2>, g: R2 -> Either<L, R3>)
    ensures SelectMany(SelectMany(m, f), g) == SelectMany(m, x => SelectMany(f(x), g))
  {
  }
}

module StateMonad {
  datatype StateTuple<A, S> = StateTuple(value: A, state: S)

  type State<!S, A> = S -> StateTuple<A, S>

  /** Yields the state as the value. */
  function Get<S>(): State<S, S> { s => StateTuple(s, s) }

  /** Replaces the state; the value is default(A) in the source. */
  function Put<S, A>(x: S, default: A): State<S, A> { z => StateTuple(default, x) }

  /** Applies f to the state. */
  function Modify<S, A>(f: S -> S, default: A): State<S, A> { z => StateTuple(default, f(z)) }

  function EvalState<S, A>(m: State<S, A>, init: S): A { m(init).value }

  function ExecState<S, A>(m: State<S, A>, init: S): S { m(init).state }

  function ToState<S, A>(value: A): State<S, A> { s => StateTuple(value, s) }

  function Select<S, A, B>(m: State<S, A>, k: A -> B): State<S, B>
  {
    s => var s0 := m(s); StateTuple(k(s0.value), s0.state)
  }

  /** Runs the continuation on the state the first computation leaves. */
  function SelectMany<S, A, B>(a: State<S, A>, k: A -> State<S, B>): State<S, B>
  {
    s0 => var s1 := a(s0); k(a(s0).value)(s1.state)
  }

  function SelectMany3<S, A, B, C>(m: State<S, A>, k: A -> State<S, B>, s: (A, B) -> C): State<S, C>
  {
    SelectMany(m, t => SelectMany(k(t), u => ToState(s(t, u))))
  }

  /** Get, Put and Modify in terms of the value and state they produce. */
  lemma {:induction false} GetPutModify<S, A>(s: S, x: S, f: S -> S, default: A)
    ensures EvalState(Get(), s) == s && ExecState(Get(), s) == s
    ensures EvalState(Put(x, default), s) == default && ExecState(Put(x, default), s) == x
    ensures EvalState(Modify(f, default), s) == default && ExecState(Modify(f, default), s) == f(s)
  {
  }

  /** Modify is reading the state and putting back its image. */
  lemma {:induction false} ModifyIsGetThenPut<S, A>(f: S -> S, default: A, s: S)
    ensures SelectMany(Get(), (x: S) => Put(f(x), default))(s) == Modify(f, default)(s)
  {
  }

  /** What was put is what is read next. */
  lemma {:induction false} PutThenGet<S, A>(x: S, default: A, s: S)
    ensures SelectMany(Put(x, default), (a: A) => Get())(s) == StateTuple(x, x)
  {
  }

  /** The second computation sees the state the first one left, and the result is the second's. */
  lemma {:induction false} SelectManyThreads<S, A, B>(a: State<S, A>, k: A -> State<S, B>, s: S)
    ensures SelectMany(a, k)(s) == k(EvalState(a, s))(ExecState(a, s))
  {
  }

  lemma {:induction false} SelectIsBind<S, A, B>(m: State<S, A>, k: A -> B, s: S)
    ensures Select(m, k)(s) == SelectMany(m, x => ToState(k(x)))(s)
  {
  }

  lemma {:induction false} LeftIdentity<S, A, B>(v: A, f: A -> State<S, B>, s: S)
    ensures SelectMany(ToState(v), f)(s) == f(v)(s)
  {
  }

  lemma {:induction false} RightIdentity<S, A>(m: State<S, A>, s: S)
    ensures SelectMany(m, ToState)(s) == m(s)
  {
  }

  lemma {:induction false} Associativity<S, A, B, C>(m: State<S, A>, f: A -> State<S, B>, g: B -> State<S, C>, s: S)
    ensures SelectMany(SelectMany(m, f), g)(s) == SelectMany(m, x => SelectMany(f(x), g))(s)
  {
  }
}

module ReaderMonad {
  type Reader<-S, A> = S -> A

  function Ask<S>(): Reader<S, S> { s => s }

  /** Runs reader on the environment transformed by f. */
  function Local<S, A>(f: S -> S, reader: Reader<S, A>): Reader<S, A> { s => reader(f(s)) }

  function ToReader<S, A>(value: A): Reader<S, A> { s => value }

  function Select<S, A, B>(m: Reader<S, A>, k: A -> B): Reader<S, B> { s => k(m(s)) }

  function SelectMany<S, A, B>(a: Reader<S, A>, b: A -> Reader<S, B>): Reader<S, B> { r => b(a(r))(r) }

  function SelectMany3<S, A, B, C>(m: Reader<S, A>, k: A -> Reader<S, B>, s: (A, B) -> C): Reader<S, C>
  {
    SelectMany(m, t => SelectMany(k(t), u => ToReader(s(t, u))))
  }

  /** Asking under Local sees the transformed environment. */
  lemma {:induction false} LocalAsk<S>(f: S -> S, s: S)
    ensures Local(f, Ask())(s) == f(s)
  {
  }

  /** Nested Local applies the outer transformation first. */
  lemma {:induction false} LocalComposes<S, A>(f: S -> S, g: S -> S, r: Reader<S, A>, s: S)
    ensures Local(f, Local(g, r))(s) == Local(x => g(f(x)), r)(s)
  {
  }

  /** Local distributes over bind: every step of the computation sees the same environment. */
  lemma {:induction false} LocalOverBind<S, A, B>(f: S -> S, m: Reader<S, A>, k: A -> Reader<S, B>, s: S)
    ensures Local(f, SelectMany(m, k))(s) == SelectMany(Local(f, m), x => Local(f, k(x)))(s)
  {
  }

  lemma {:induction false} LeftIdentity<S, A, B>(v: A, f: A -> Reader<S, B>, s: S)
    ensures SelectMany(ToReader(v), f)(s) == f(v)(s)
  {
  }

  lemma {:induction false} RightIdentity<S, A>(m: Reader<S, A>, s: S)
    ensures SelectMany(m, ToReader)(s) == m(s)
  {
  }

  lemma {:induction false} Associativity<S, A, B, C>(m: Reader<S, A>, f: A -> Reader<S, B>, g: B -> Reader<S, C>, s: S)
    ensures SelectMany(SelectMany(m, f), g)(s) == SelectMany(m, x => SelectMany(f(x), g))(s)
  {
  }
}

/**
 * The writer delegate is a thunk that Select and SelectMany force as soon as
 * they are called; a writer is therefore identified with the tuple it
 * yields. The string-logged variant is this one at W = char: its log is a
 * string, its unit logs "" and its Tell logs a whole string.
 */
module WriterMonad {
  datatype WriterTuple<A, W> = WriterTuple(value: A, log: seq<W>)

  type Writer<W, A> = WriterTuple<A, W>

  function Create<W, A>(value: A, log: seq<W>): Writer<W, A> { WriterTuple(value, log) }

  /** Logs one message; the value is default(A) in the source. */
  function Tell<W, A>(w: W, default: A): Writer<W, A> { Create(default, [w]) }

  /** The string variant's Tell logs a whole string. */
  function TellString<A>(w: string, default: A): Writer<char, A> { Create(default, w) }

  function ToWriter<W, A>(value: A): Writer<W, A> { Create(value, []) }

  function Select<W, A, B>(m: Writer<W, A>, k: A -> B): Writer<W, B> { Create(k(m.value), m.log) }

  function SelectMany<W, A, B>(a: Writer<W, A>, k: A -> Writer<W, B>): Writer<W, B>
  {
    var s2 := k(a.value); Create(s2.value, a.log + s2.log)
  }

  function SelectMany3<W, A, B, C>(m: Writer<W, A>, k: A -> Writer<W, B>, s: (A, B) -> C): Writer<W, C>
  {
    SelectMany(m, t => SelectMany(k(t), u => ToWriter(s(t, u))))
  }

  /** The log of a bind is the first log followed by the second. */
  lemma {:induction false} LogsConcatenate<W, A, B>(a: Writer<W, A>, k: A -> Writer<W, B>)
    ensures SelectMany(a, k).log == a.log + k(a.value).log
    ensures |SelectMany(a, k).log| == |a.log| + |k(a.value).log|
  {
  }

  /** The unit logs nothing; the string variant's unit logs "". */
  lemma {:induction false} UnitLogsNothing<A>(v: A)
    ensures ToWriter<char, A>(v).log == ""
  {
  }

  /** The comprehension logs both steps in order and yields s of the two values. */
  lemma {:induction false} SelectMany3Spec<W, A, B, C>(m: Writer<W, A>, k: A -> Writer<W, B>, s: (A, B) -> C)
    ensures SelectMany3(m, k, s) == Create(s(m.value, k(m.value).value), m.log + k(m.value).log)
  {
    assert k(m.value).log + [] == k(m.value).log;
  }

  lemma {:induction false} LeftIdentity<W, A, B>(v: A, f: A -> Writer<W, B>)
    ensures SelectMany(ToWriter(v), f) == f(v)
  {
    assert [] + f(v).log == f(v).log;
  }

  lemma {:induction false} RightIdentity<W, A>(m: Writer<W, A>)
    ensures SelectMany(m, ToWriter) == m
  {
    assert m.log + [] == m.log;
  }

  lemma {:induction false} Associativity<W, A, B, C>(m: Writer<W, A>, f: A -> Writer<W, B>, g: B -> Writer<W, C>)
    ensures SelectMany(SelectMany(m, f), g) == SelectMany(m, x => SelectMany(f(x), g))
  {
    var b := f(m.value);
    var c := g(b.value);
    assert (m.log + b.log) + c.log == m.log + (b.log + c.log);
  }
}

/**
 * A continuation computation takes the rest of the computation and gives
 * the answer. Dafny cannot equate two function values from their results,
 * so the laws whose two sides hand the computation two distinct but
 * pointwise equal continuations assume the computation looks only at the
 * results of the continuation it is given (Extensional), which every
 * computation written from lambdas does.
 */
module ContMonad {
  type Cont<!T, !Ans> = (T -> Ans) -> Ans

  ghost predicate Extensional<T(!new), Ans(!new)>(m: Cont<T, Ans>)
  {
    forall k1: T -> Ans, k2: T -> Ans :: (forall x :: k1(x) == k2(x)) ==> m(k1) == m(k2)
  }

  function ToCont<T, Ans>(value: T): Cont<T, Ans> { (k: T -> Ans) => k(value) }

  function SelectMany<T, U, Ans>(m: Cont<T, Ans>, k: T -> Cont<U, Ans>): Cont<U, Ans>
  {
    (s: U -> Ans) => m((t: T) => k(t)(s))
  }

  function Select<T, U, Ans>(m: Cont<T, Ans>, k: T -> U): Cont<U, Ans>
  {
    SelectMany(m, x => ToCont(k(x)))
  }

  function SelectMany3<T, U, V, Ans>(m: Cont<T, Ans>, k: T -> Cont<U, Ans>, s: (T, U) -> V): Cont<V, Ans>
  {
    SelectMany(m, t => SelectMany(k(t), u => ToCont(s(t, u))))
  }

  /** Hands f an escape function; calling it with v answers k(v), whatever comes after. */
  function CallCC<T, Ans>(f: (T -> Cont<T, Ans>) -> Cont<T, Ans>): Cont<T, Ans>
  {
    (k: T -> Ans) => f((value: T) => (x: T -> Ans) => k(value))(k)
  }

  /** Escaping gives the answer of the outer continuation at once. */
  lemma {:induction false} CallCCEscapes<T, Ans>(v: T, k: T -> Ans)
    ensures CallCC((exit: T -> Cont<T, Ans>) => exit(v))(k) == k(v)
  {
  }

  /** Whatever is bound after an escape never runs. */
  lemma {:induction false} CallCCDiscardsRest<T, Ans>(v: T, g: T -> Cont<T, Ans>, k: T -> Ans)
    ensures CallCC((exit: T -> Cont<T, Ans>) => SelectMany(exit(v), g))(k) == k(v)
  {
    var exit := (value: T) => (x: T -> Ans) => k(value);
    assert CallCC((exit: T -> Cont<T, Ans>) => SelectMany(exit(v), g))(k) == SelectMany(exit(v), g)(k);
    assert SelectMany(exit(v), g)(k) == exit(v)((t: T) => g(t)(k));
  }

  /** Without an escape, CallCC runs the body with the outer continuation. */
  lemma {:induction false} CallCCWithoutEscape<T, Ans>(m: Cont<T, Ans>, k: T -> Ans)
    ensures CallCC((exit: T -> Cont<T, Ans>) => m)(k) == m(k)
  {
  }

  lemma {:induction false} SelectApplies<T, U, Ans>(v: T, f: T -> U, k: U -> Ans)
    ensures Select(ToCont(v), f)(k) == k(f(v))
  {
  }

  lemma {:induction false} LeftIdentity<T, U, Ans>(v: T, f: T -> Cont<U, Ans>, k: U -> Ans)
    ensures SelectMany(ToCont(v), f)(k) == f(v)(k)
  {
  }

  lemma {:induction false} RightIdentity<T(!new), Ans(!new)>(m: Cont<T, Ans>, k: T -> Ans)
    requires Extensional(m)
    ensures SelectMany(m, ToCont)(k) == m(k)
  {
    var k1 := (t: T) => ToCont(t)(k);
    forall x ensures k1(x) == k(x) {
      assert ToCont<T, Ans>(x)(k) == k(x);
    }
    assert SelectMany(m, ToCont)(k) == m(k1);
  }

  lemma {:induction false} Associativity<T(!new), U, V, Ans(!new)>(m: Cont<T, Ans>, f: T -> Cont<U, Ans>, g: U -> Cont<V, Ans>,
                                                      k: V -> Ans)
    requires Extensional(m)
    ensures SelectMany(SelectMany(m, f), g)(k) == SelectMany(m, x => SelectMany(f(x), g))(k)
  {
    var k1 := (t: T) => f(t)((u: U) => g(u)(k));
    var k2 := (t: T) => SelectMany(f(t), g)(k);
    assert forall x :: k1(x) == k2(x);
  }
}
