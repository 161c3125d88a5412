// S-expression data and their printed form.

module SExpression {
  import opened Wrappers

  /** An atom holds a boolean or a symbol's text, the two kinds the reader builds. */
  datatype AtomValue = BoolAtom(b: bool) | TextAtom(text: string)

  /** A datum is a cons cell, the empty list or an atom. */
  datatype Datum = Cons(car: Datum, cdr: Datum) | Nil | Atom(value: AtomValue)

  predicate IsPair(d: Datum) { d.Cons? }

  /** Only the empty list is null: a cons cell always has a car. */
  predicate IsNull(d: Datum) { d.Nil? }

  /** The car of a pair; the empty list and atoms have none. */
  function Car(d: Datum): (r: Option<Datum>)
    ensures r.Some? <==> IsPair(d)
    ensures forall a, b :: d == Cons(a, b) ==> r == Some(a)
  {
    if d.Cons? then Some(d.car) else None
  }

  /** The cdr of a pair; the empty list and atoms have none. */
  function Cdr(d: Datum): (r: Option<Datum>)
    ensures r.Some? <==> IsPair(d)
    ensures forall a, b :: d == Cons(a, b) ==> r == Some(b)
  {
    if d.Cons? then Some(d.cdr) else None
  }

  /** The value of an atom; pairs and the empty list have none. */
  function Value(d: Datum): (r: Option<AtomValue>)
    ensures r.Some? <==> !IsPair(d) && !IsNull(d)
    ensures forall v :: d == Atom(v) ==> r == Some(v)
  {
    if d.Atom? then Some(d.value) else None
  }

  function Size(d: Datum): nat
  {
    match d
    case Cons(a, b) => Size(a) + Size(b) + 1
    case _ => 1
  }

  // ---------------------------------------------------------------------
  // The printed form, as a recursive definition

  function AtomText(v: AtomValue): string
  {
    match v
    case BoolAtom(b) => if b then "#t" else "#f"
    case TextAtom(t) => t
  }

  /**
   * A list is written in parentheses, elements separated by one space; an
   * improper list ends in " . " and its last cdr.
   */
  function Print(d: Datum): string
    decreases Size(d), 1
  {
    match d
    case Nil => "()"
    case Atom(v) => AtomText(v)
    case Cons(a, b) => "(" + Print(a) + Rest(b) + ")"
  }

  /** What follows the first element of a list, before the closing parenthesis. */
  function Rest(d: Datum): string
    decreases Size(d), 2
  {
    match d
    case Nil => ""
    case Cons(a, b) => " " + Print(a) + Rest(b)
    case Atom(_) => " . " + Print(d)
  }

  /** Writes a datum: the elements of a list are visited along the cdr chain. */
  method ToString(d: Datum) returns (s: string)
    ensures s == Print(d)
    decreases Size(d)
  {
    if IsPair(d) {
      var builder := "(";
      var first := true;
      var ptr := d;
      while IsPair(ptr)
        invariant Size(ptr) <= Size(d)
        invariant first ==> ptr == d && builder == "("
        invariant !first ==> builder + Rest(ptr) == "(" + Print(d.car) + Rest(d.cdr)
        decreases Size(ptr)
      {
        ghost var before := builder;
        if !first {
          builder := builder + " ";
        }
        var element := ToString(ptr.car);
        builder := builder + element;
        if !first {
          RestUnfold(before, ptr);
        }
        first := false;
        ptr := ptr.cdr;
      }
      if !IsNull(ptr) {
        var last := ToString(ptr);
        builder := builder + " . " + last;
      }
      s := builder + ")";
    } else if IsNull(d) {
      s := "()";
    } else if d.value == BoolAtom(true) {
      s := "#t";
    } else if d.value == BoolAtom(false) {
      s := "#f";
    } else {
      s := d.value.text;
    }
  }

  /** One more element of a list: a space, the element, then the rest. */
  lemma RestUnfold(prefix: string, d: Datum)
    requires d.Cons?
    ensures prefix + " " + Print(d.car) + Rest(d.cdr) == prefix + Rest(d)
  {
    assert Rest(d) == " " + Print(d.car) + Rest(d.cdr);
  }

  // ---------------------------------------------------------------------
  // Properties of the printed form

  /** The proper list of the elements. */
  function ListOf(xs: seq<Datum>): (d: Datum)
    ensures xs == [] <==> IsNull(d)
    ensures xs != [] ==> d == Cons(xs[0], ListOf(xs[1..]))
  {
    if xs == [] then Nil else Cons(xs[0], ListOf(xs[1..]))
  }

  /** The printed elements, separated by single spaces. */
  function Joined(xs: seq<Datum>): string
  {
    if xs == [] then ""
    else if |xs| == 1 then Print(xs[0])
    else Print(xs[0]) + " " + Joined(xs[1..])
  }

  lemma {:induction false} RestOfList(xs: seq<Datum>)
    ensures Rest(ListOf(xs)) == if xs == [] then "" else " " + Joined(xs)
  {
    if xs != [] {
      RestOfList(xs[1..]);
      if |xs| == 1 {
        assert xs[1..] == [];
      }
    }
  }

  /** A proper list prints as its elements in parentheses, one space apart; the empty one as (). */
  lemma ListPrint(xs: seq<Datum>)
    ensures Print(ListOf(xs)) == "(" + Joined(xs) + ")"
  {
    if xs != [] {
      RestOfList(xs[1..]);
      if |xs| == 1 {
        assert xs[1..] == [];
      }
    }
  }

  /** A pair whose cdr is an atom prints with a dot between its two parts. */
  lemma DottedPrint(a: Datum, v: AtomValue)
    ensures Print(Cons(a, Atom(v))) == "(" + Print(a) + " . " + AtomText(v) + ")"
  {
    assert Rest(Atom(v)) == " . " + AtomText(v);
    assert "(" + Print(a) + (" . " + AtomText(v)) == "(" + Print(a) + " . " + AtomText(v);
  }

  /** The improper list of the elements, ending in the atom v instead of the empty list. */
  function ImproperListOf(xs: seq<Datum>, v: AtomValue): (d: Datum)
    ensures xs == [] <==> d == Atom(v)
    ensures xs != [] ==> d.Cons? && d.car == xs[0]
  {
    if xs == [] then Atom(v) else Cons(xs[0], ImproperListOf(xs[1..], v))
  }

  lemma {:induction false} RestOfImproperList(xs: seq<Datum>, v: AtomValue)
    ensures Rest(ImproperListOf(xs, v)) == (if xs == [] then "" else " " + Joined(xs)) + (" . " + AtomText(v))
  {
    if xs == [] {
      assert Rest(Atom(v)) == " . " + AtomText(v);
    } else {
      RestOfImproperList(xs[1..], v);
      RestOfImproperStep(xs, v);
    }
  }

  /** One element more in front of an improper list. */
  lemma {:induction false} RestOfImproperStep(xs: seq<Datum>, v: AtomValue)
    requires xs != []
    requires Rest(ImproperListOf(xs[1..], v)) == (if xs[1..] == [] then "" else " " + Joined(xs[1..])) + (" . " + AtomText(v))
    ensures Rest(ImproperListOf(xs, v)) == " " + Joined(xs) + (" . " + AtomText(v))
  {
    var tail := ImproperListOf(xs[1..], v);
    var dot := " . " + AtomText(v);
    var others := if xs[1..] == [] then "" else " " + Joined(xs[1..]);
    assert ImproperListOf(xs, v) == Cons(xs[0], tail);
    JoinedHead(xs, dot);
    calc {
      Rest(Cons(xs[0], tail));
      " " + Print(xs[0]) + (others + dot);
      { ConcatAssoc(" ", Print(xs[0]), others + dot); }
      " " + (Print(xs[0]) + (others + dot));
      " " + (Joined(xs) + dot);
      { ConcatAssoc(" ", Joined(xs), dot); }
      " " + Joined(xs) + dot;
    }
  }

  lemma {:induction false} ConcatAssoc(a: string, b: string, c: string)
    ensures a + b + c == a + (b + c)
  {
  }

  /**
   * An improper list prints as its elements one space apart, then " . " and
   * the final atom, all in parentheses.
   */
  lemma {:induction false} ImproperListPrint(xs: seq<Datum>, v: AtomValue)
    requires xs != []
    ensures Print(ImproperListOf(xs, v)) == "(" + Joined(xs) + " . " + AtomText(v) + ")"
  {
    var tail := ImproperListOf(xs[1..], v);
    var dot := " . " + AtomText(v);
    RestOfImproperList(xs[1..], v);
    JoinedHead(xs, dot);
    assert ImproperListOf(xs, v) == Cons(xs[0], tail);
    PrintCons(xs[0], tail);
    calc {
      Print(Cons(xs[0], tail));
      "(" + (Print(xs[0]) + Rest(tail)) + ")";
      "(" + (Joined(xs) + dot) + ")";
      { ConcatAssoc("(", Joined(xs), dot); }
      "(" + Joined(xs) + dot + ")";
      { ConcatAssoc("(" + Joined(xs), " . ", AtomText(v)); }
      "(" + Joined(xs) + " . " + AtomText(v) + ")";
    }
  }

  /** A pair prints as its car and the rest of its cdr, in parentheses. */
  lemma {:induction false} PrintCons(a: Datum, b: Datum)
    ensures Print(Cons(a, b)) == "(" + (Print(a) + Rest(b)) + ")"
  {
  }

  /** The first printed element, then the rest of the elements and a suffix. */
  lemma {:induction false} JoinedHead(xs: seq<Datum>, suffix: string)
    requires xs != []
    ensures Print(xs[0]) + ((if xs[1..] == [] then "" else " " + Joined(xs[1..])) + suffix) == Joined(xs) + suffix
  {
    if |xs| == 1 {
      assert xs[1..] == [];
    }
  }

  /** The number of occurrences of c in s. */
  function Occurrences(s: string, c: char): nat
  {
    multiset(s)[c]
  }

  predicate ParenFree(v: AtomValue)
  {
    v.TextAtom? ==> '(' !in v.text && ')' !in v.text
  }

  predicate AtomsParenFree(d: Datum)
  {
    match d
    case Cons(a, b) => AtomsParenFree(a) && AtomsParenFree(b)
    case Nil => true
    case Atom(v) => ParenFree(v)
  }

  /** With no parenthesis in any symbol, the printed form opens as many parentheses as it closes. */
  lemma {:induction false} PrintBalanced(d: Datum)
    requires AtomsParenFree(d)
    ensures Occurrences(Print(d), '(') == Occurrences(Print(d), ')')
    decreases Size(d), 1
  {
    match d
    case Nil =>
    case Atom(v) =>
      if v.TextAtom? {
        assert multiset(v.text)['('] == 0 && multiset(v.text)[')'] == 0;
      }
    case Cons(a, b) =>
      PrintBalanced(a);
      RestBalanced(b);
      assert Print(d) == "(" + Print(a) + Rest(b) + ")";
  }

  lemma {:induction false} RestBalanced(d: Datum)
    requires AtomsParenFree(d)
    ensures Occurrences(Rest(d), '(') == Occurrences(Rest(d), ')')
    decreases Size(d), 2
  {
    match d
    case Nil =>
    case Atom(_) =>
      PrintBalanced(d);
      assert Rest(d) == " . " + Print(d);
    case Cons(a, b) =>
      PrintBalanced(a);
      RestBalanced(b);
      assert Rest(d) == " " + Print(a) + Rest(b);
  }
}
