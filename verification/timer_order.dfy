/**
 * The order in which the timer service stores its timers: by end instant,
 * ties broken by name, an absent name before every present one.
 */
module TimerOrder {
  import opened NamedTimers

  /** Code point by code point lexicographic order on names. */
  predicate TextLessEq(a: string, b: string)
    decreases |a|
  {
    |a| == 0 || (|b| > 0 && (a[0] < b[0] || (a[0] == b[0] && TextLessEq(a[1..], b[1..]))))
  }

  lemma {:induction false} TextTotal(a: string, b: string)
    ensures TextLessEq(a, b) || TextLessEq(b, a)
    decreases |a|
  {
    if |a| > 0 && |b| > 0 && a[0] == b[0] {
      TextTotal(a[1..], b[1..]);
    }
  }

  lemma {:induction false} TextAntisymmetric(a: string, b: string)
    requires TextLessEq(a, b) && TextLessEq(b, a)
    ensures a == b
    decreases |a|
  {
    if |a| > 0 {
      TextAntisymmetric(a[1..], b[1..]);
      assert a == [a[0]] + a[1..] && b == [b[0]] + b[1..];
    }
  }

  lemma {:induction false} TextTransitive(a: string, b: string, c: string)
    requires TextLessEq(a, b) && TextLessEq(b, c)
    ensures TextLessEq(a, c)
    decreases |a|
  {
    if |a| > 0 && a[0] == b[0] && b[0] == c[0] {
      TextTransitive(a[1..], b[1..], c[1..]);
    }
  }

  /** The comparer puts an absent name first. */
  predicate NameLessEq(a: Option<string>, b: Option<string>): (r: bool)
    ensures a.None? ==> r
    ensures a.Some? && b.None? ==> !r
    ensures a.Some? && b.Some? ==> (r <==> TextLessEq(a.value, b.value))
  {
    a.None? || (b.Some? && TextLessEq(a.value, b.value))
  }

  /** Order by end instant, then by name. */
  predicate TimerLessEq(a: NamedTimer, b: NamedTimer): (r: bool)
    ensures a.end < b.end ==> r
    ensures b.end < a.end ==> !r
    ensures a.end == b.end && a.name.None? ==> r
    ensures a.end == b.end && a.name.Some? && b.name.None? ==> !r
  {
    a.end < b.end || (a.end == b.end && NameLessEq(a.name, b.name))
  }

  lemma TimerTotal(a: NamedTimer, b: NamedTimer)
    ensures TimerLessEq(a, b) || TimerLessEq(b, a)
  {
    if a.name.Some? && b.name.Some? {
      TextTotal(a.name.value, b.name.value);
    }
  }

  lemma TimerAntisymmetric(a: NamedTimer, b: NamedTimer)
    requires TimerLessEq(a, b) && TimerLessEq(b, a)
    ensures a == b
  {
    if a.name.Some? && b.name.Some? {
      TextAntisymmetric(a.name.value, b.name.value);
    }
  }

  lemma TimerTransitive(a: NamedTimer, b: NamedTimer, c: NamedTimer)
    requires TimerLessEq(a, b) && TimerLessEq(b, c)
    ensures TimerLessEq(a, c)
  {
    if a.end == b.end == c.end && a.name.Some? && b.name.Some? && c.name.Some? {
      TextTransitive(a.name.value, b.name.value, c.name.value);
    }
  }

  predicate Sorted(s: seq<NamedTimer>) {
    forall i, j :: 0 <= i < j < |s| ==> TimerLessEq(s[i], s[j])
  }

  /** The head of a sorted list is below each of its elements. */
  lemma HeadIsLeast(s: seq<NamedTimer>, x: NamedTimer)
    requires Sorted(s) && |s| > 0 && x in multiset(s)
    ensures TimerLessEq(s[0], x)
  {
    var j :| 0 <= j < |s| && s[j] == x;
    if j == 0 {
      TimerTotal(x, x);
    }
  }

  /** Puts t into a sorted list after every timer that orders strictly before it. */
  function Insert(t: NamedTimer, s: seq<NamedTimer>): (r: seq<NamedTimer>)
    requires Sorted(s)
    ensures Sorted(r)
    ensures multiset(r) == multiset(s) + multiset{t}
  {
    if s == [] then [t]
    else if TimerLessEq(t, s[0]) then
      LeastPrepended(t, s);
      [t] + s
    else
      assert s == [s[0]] + s[1..];
      var rest := Insert(t, s[1..]);
      HeadPrepended(t, s, rest);
      [s[0]] + rest
  }

  /** A timer ordered before the head of a sorted list can go in front of it. */
  lemma LeastPrepended(t: NamedTimer, s: seq<NamedTimer>)
    requires Sorted(s) && s != [] && TimerLessEq(t, s[0])
    ensures Sorted([t] + s)
  {
    forall j | 0 <= j < |s| ensures TimerLessEq(t, s[j]) {
      if j > 0 { TimerTransitive(t, s[0], s[j]); }
    }
  }

  /** When t is not before the head, the head stays in front of the tail with t inserted. */
  lemma HeadPrepended(t: NamedTimer, s: seq<NamedTimer>, rest: seq<NamedTimer>)
    requires Sorted(s) && s != [] && !TimerLessEq(t, s[0])
    requires Sorted(rest) && multiset(rest) == multiset(s[1..]) + multiset{t}
    ensures Sorted([s[0]] + rest)
    ensures multiset([s[0]] + rest) == multiset(s) + multiset{t}
  {
    TimerTotal(t, s[0]);
    assert s == [s[0]] + s[1..];
    forall j | 0 <= j < |rest| ensures TimerLessEq(s[0], rest[j]) {
      assert rest[j] in multiset(rest);
      if rest[j] != t {
        assert rest[j] in multiset(s);
        HeadIsLeast(s, rest[j]);
      }
    }
  }

  /**
   * The stored order of SetTimers: OrderBy(End).ThenBy(Name). The result is sorted
   * and holds exactly the given timers.
   */
  function SortTimers(xs: seq<NamedTimer>): (r: seq<NamedTimer>)
    ensures Sorted(r)
    ensures multiset(r) == multiset(xs)
  {
    if xs == [] then []
    else
      assert xs == [xs[0]] + xs[1..];
      Insert(xs[0], SortTimers(xs[1..]))
  }

  /**
   * Two sorted lists holding the same timers are equal: the stored order does not
   * depend on the order the timers were submitted in. This holds for the ordinal
   * name order of this model, where only equal timers tie.
   */
  lemma {:induction false} SortedPermutationUnique(a: seq<NamedTimer>, b: seq<NamedTimer>)
    requires Sorted(a) && Sorted(b)
    requires multiset(a) == multiset(b)
    ensures a == b
    decreases |a|
  {
    if |a| == 0 {
      assert |multiset(b)| == 0;
    } else {
      assert a[0] in multiset(a);
      assert b[0] in multiset(b);
      HeadIsLeast(b, a[0]);
      HeadIsLeast(a, b[0]);
      TimerAntisymmetric(a[0], b[0]);
      assert a == [a[0]] + a[1..];
      assert b == [b[0]] + b[1..];
      assert multiset(a[1..]) == multiset(a) - multiset{a[0]};
      assert multiset(b[1..]) == multiset(b) - multiset{b[0]};
      SortedPermutationUnique(a[1..], b[1..]);
    }
  }

  /** Sorting is the only sorted permutation: SortTimers is a canonical form. */
  lemma SortTimersCanonical(xs: seq<NamedTimer>, ys: seq<NamedTimer>)
    requires multiset(xs) == multiset(ys)
    ensures SortTimers(xs) == SortTimers(ys)
  {
    SortedPermutationUnique(SortTimers(xs), SortTimers(ys));
  }
}
