/** Counting and flattening over sequences: the arithmetic behind every colour tally. */
module Seqs {

  /** Number of positions of `s` holding `x`. */
  function Occurrences<T(==)>(s: seq<T>, x: T): (n: nat)
    ensures n <= |s|
    ensures n > 0 <==> x in s
  {
    if |s| == 0 then 0
    else
      assert s == s[..|s| - 1] + [s[|s| - 1]];
      Occurrences(s[..|s| - 1], x) + (if s[|s| - 1] == x then 1 else 0)
  }

  lemma OccurrencesSnoc<T>(s: seq<T>, y: T, x: T)
    ensures Occurrences(s + [y], x) == Occurrences(s, x) + (if y == x then 1 else 0)
  {
    assert (s + [y])[..|s|] == s;
  }

  lemma {:induction false} OccurrencesAppend<T>(a: seq<T>, b: seq<T>, x: T)
    ensures Occurrences(a + b, x) == Occurrences(a, x) + Occurrences(b, x)
  {
    if |b| == 0 {
      assert a + b == a;
    } else {
      var b' := b[..|b| - 1];
      assert a + b == (a + b') + [b[|b| - 1]];
      assert b == b' + [b[|b| - 1]];
      OccurrencesAppend(a, b', x);
      OccurrencesSnoc(a + b', b[|b| - 1], x);
      OccurrencesSnoc(b', b[|b| - 1], x);
    }
  }

  /** A sequence holding one value everywhere counts that value once per position, and nothing else. */
  lemma {:induction false} OccurrencesUniform<T>(s: seq<T>, c: T, x: T)
    requires forall i :: 0 <= i < |s| ==> s[i] == c
    ensures Occurrences(s, x) == if x == c then |s| else 0
  {
    if |s| > 0 {
      OccurrencesUniform(s[..|s| - 1], c, x);
    }
  }

  predicate Distinct<T(==)>(xs: seq<T>) {
    forall i, j :: 0 <= i < j < |xs| ==> xs[i] != xs[j]
  }

  /** Sum, over the values listed in `xs`, of how often each occurs in `s`. */
  function SumOccurrences<T(==)>(s: seq<T>, xs: seq<T>): nat {
    if |xs| == 0 then 0
    else SumOccurrences(s, xs[..|xs| - 1]) + Occurrences(s, xs[|xs| - 1])
  }

  lemma {:induction false} SumOccurrencesAppend<T>(a: seq<T>, b: seq<T>, xs: seq<T>)
    ensures SumOccurrences(a + b, xs) == SumOccurrences(a, xs) + SumOccurrences(b, xs)
  {
    if |xs| > 0 {
      SumOccurrencesAppend(a, b, xs[..|xs| - 1]);
      OccurrencesAppend(a, b, xs[|xs| - 1]);
    }
  }

  /** A single value is counted once by a list of distinct values when it is listed, and not at all otherwise. */
  lemma {:induction false} SumOccurrencesSingleton<T>(y: T, xs: seq<T>)
    requires Distinct(xs)
    ensures SumOccurrences([y], xs) == if y in xs then 1 else 0
  {
    if |xs| > 0 {
      var xs' := xs[..|xs| - 1];
      assert xs == xs' + [xs[|xs| - 1]];
      SumOccurrencesSingleton(y, xs');
      assert [y][..0] == [];
    }
  }

  /** Counting distinct values never counts more positions than there are, and counts all of them
      when every element is one of the values. */
  lemma {:induction false} SumOccurrencesBound<T>(s: seq<T>, xs: seq<T>)
    requires Distinct(xs)
    ensures SumOccurrences(s, xs) <= |s|
    ensures (forall i :: 0 <= i < |s| ==> s[i] in xs) ==> SumOccurrences(s, xs) == |s|
  {
    if |s| == 0 {
      SumOccurrencesZero(xs);
    } else {
      var s' := s[..|s| - 1];
      assert s == s' + [s[|s| - 1]];
      SumOccurrencesBound(s', xs);
      SumOccurrencesAppend(s', [s[|s| - 1]], xs);
      SumOccurrencesSingleton(s[|s| - 1], xs);
    }
  }

  lemma {:induction false} SumOccurrencesZero<T>(xs: seq<T>)
    ensures SumOccurrences([], xs) == 0
  {
    if |xs| > 0 {
      SumOccurrencesZero(xs[..|xs| - 1]);
    }
  }

  /** Flattening a list of lists, in order (`flat()` / concatenation of faces). */
  /** Nine copies of `x`: a face of one colour, or a run of one face letter. */
  function NineOf<T>(x: T): (r: seq<T>)
    ensures |r| == 9 && forall i :: 0 <= i < 9 ==> r[i] == x
  {
    seq(9, _ => x)
  }

  function Concat<T>(ss: seq<seq<T>>): (r: seq<T>)
  {
    if |ss| == 0 then [] else Concat(ss[..|ss| - 1]) + ss[|ss| - 1]
  }
}
