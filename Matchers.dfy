/**
 * The regular expressions the library and its samples use, as anchored
 * matchers: a literal prefix followed by a greedy run of one character
 * class with a minimum and an optional maximum count (`[0-9]+`,
 * `\\x[0-9A-Fa-f]{1,4}`, `\\.`), or a literal prefix followed by one
 * character from each of a list of classes (`\\[0-3][0-7][0-7]`).
 */
module Matchers {
  import opened Wrappers
  import opened ParserCore

  /** Length of the longest prefix of s, at most limit long, whose characters are all in cls. */
  function RunLength(s: string, cls: char -> bool, limit: nat): (n: nat)
    ensures n <= |s| && n <= limit
    ensures forall i :: 0 <= i < n ==> cls(s[i])
    ensures n < |s| && n < limit ==> !cls(s[n])
  {
    if s == [] || limit == 0 || !cls(s[0]) then 0 else 1 + RunLength(s[1..], cls, limit - 1)
  }

  /** prefix, then a greedy run of cls of length at least min and at most max (unbounded when None). */
  function Repeat(prefix: string, cls: char -> bool, min: nat, max: Option<nat>): Matcher
  {
    (s: string) =>
      if prefix <= s then
        var n := RunLength(s[|prefix|..], cls, if max.Some? then max.value else |s|);
        if n >= min then Some(|prefix| + n) else None
      else None
  }

  /** What Repeat matches at the start of s. */
  function RepeatAt(prefix: string, cls: char -> bool, min: nat, max: Option<nat>, s: string): (r: Option<nat>)
    ensures r.Some? ==> r.value <= |s|
  {
    if prefix <= s then
      var n := RunLength(s[|prefix|..], cls, if max.Some? then max.value else |s|);
      if n >= min then Some(|prefix| + n) else None
    else None
  }

  /** prefix, then exactly one character of each class in turn. */
  function Sequence(prefix: string, classes: seq<char -> bool>): Matcher
  {
    (s: string) => SequenceAt(prefix, classes, s)
  }

  /** What Sequence matches at the start of s. */
  function SequenceAt(prefix: string, classes: seq<char -> bool>, s: string): (r: Option<nat>)
    ensures r.Some? ==> r.value <= |s|
  {
    if |prefix| + |classes| <= |s| && prefix <= s &&
       (forall i :: 0 <= i < |classes| ==> classes[i](s[|prefix| + i]))
    then Some(|prefix| + |classes|)
    else None
  }

  /** A run of at least one character: what `[...]+` matches. */
  function Plus(cls: char -> bool): Matcher
  {
    Repeat("", cls, 1, None)
  }

  /** One character of the class: what `[...]` matches. */
  function One(cls: char -> bool): Matcher
  {
    Repeat("", cls, 1, Some(1))
  }

  /** The run length is pinned down by where the run of the class ends. */
  lemma {:induction false} RunLengthExact(s: string, cls: char -> bool, limit: nat, n: nat)
    requires n <= |s| && n <= limit
    requires forall i :: 0 <= i < n ==> cls(s[i])
    requires n == |s| || n == limit || !cls(s[n])
    ensures RunLength(s, cls, limit) == n
  {
  }

  /** A run bounded by n reaches n exactly when the first n characters are all in the class. */
  lemma {:induction false} RunLengthFull(s: string, cls: char -> bool, n: nat)
    ensures RunLength(s, cls, n) == n <==> n <= |s| && forall i :: 0 <= i < n ==> cls(s[i])
  {
    if n <= |s| && forall i :: 0 <= i < n ==> cls(s[i]) {
      RunLengthExact(s, cls, n, n);
    }
  }

  /** Any bound at least the length of the text gives the same run. */
  lemma {:induction false} RunLengthUnbounded(s: string, cls: char -> bool, a: nat, b: nat)
    requires |s| <= a && |s| <= b
    ensures RunLength(s, cls, a) == RunLength(s, cls, b)
  {
    RunLengthExact(s, cls, b, RunLength(s, cls, a));
  }

  /** Plus matches exactly the run of the class at the start, when it is not empty. */
  lemma {:induction false} PlusMatch(cls: char -> bool, s: string, n: nat)
    requires n <= |s|
    requires forall i :: 0 <= i < n ==> cls(s[i])
    requires n == |s| || !cls(s[n])
    ensures Plus(cls)(s) == if n == 0 then None else Some(n)
  {
    assert s[|""|..] == s;
    RunLengthExact(s, cls, |s|, n);
  }

  /** A Repeat matcher with a positive minimum or a non-empty prefix never matches the empty prefix. */
  lemma {:induction false} RepeatNonEmpty(prefix: string, cls: char -> bool, min: nat, max: Option<nat>, s: string)
    requires min > 0 || |prefix| > 0
    ensures Repeat(prefix, cls, min, max)(s) != Some(0)
  {
  }

  /** A Sequence matcher with a non-empty prefix never matches the empty prefix. */
  lemma {:induction false} SequenceNonEmpty(prefix: string, classes: seq<char -> bool>, s: string)
    requires |prefix| > 0
    ensures Sequence(prefix, classes)(s) != Some(0)
  {
  }

  /** What Repeat matches: the prefix, then exactly the characters it claims, all in the class. */
  lemma {:induction false} RepeatSpec(prefix: string, cls: char -> bool, min: nat, max: Option<nat>, s: string)
    ensures var r := Repeat(prefix, cls, min, max)(s);
            r.Some? ==> prefix <= s && min <= r.value - |prefix| &&
                        (max.Some? ==> r.value - |prefix| <= max.value) &&
                        (forall i :: |prefix| <= i < r.value ==> cls(s[i])) &&
                        (r.value < |s| && (max.None? || r.value - |prefix| < max.value) ==> !cls(s[r.value]))
  {
    var r := Repeat(prefix, cls, min, max)(s);
    if r.Some? {
      var t := s[|prefix|..];
      var n := RunLength(t, cls, if max.Some? then max.value else |s|);
      forall i | |prefix| <= i < r.value ensures cls(s[i]) {
        assert s[i] == t[i - |prefix|];
      }
      if r.value < |s| {
        assert s[r.value] == t[n];
      }
    }
  }
}
