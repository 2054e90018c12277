/**
 * Ordering of strings as JavaScript compares them: `a < b` on two strings is
 * lexicographic, character by character, and a proper prefix comes first.
 * Array.prototype.sort() with no comparator uses the same order, so the sort
 * below is the model of `[...xs].sort()` on string arrays.
 */
module StringOrder {

  /** Strict lexicographic order (JavaScript's `<` on strings). */
  predicate Lt(a: string, b: string)
    decreases |a|
  {
    if |a| == 0 then |b| > 0
    else if |b| == 0 then false
    else a[0] < b[0] || (a[0] == b[0] && Lt(a[1..], b[1..]))
  }

  /** JavaScript's `<=` on strings. */
  predicate Le(a: string, b: string) {
    a == b || Lt(a, b)
  }

  lemma {:induction false} LtIrreflexive(a: string)
    ensures !Lt(a, a)
  {
    if |a| > 0 {
      LtIrreflexive(a[1..]);
    }
  }

  lemma {:induction false} LtTransitive(a: string, b: string, c: string)
    requires Lt(a, b) && Lt(b, c)
    ensures Lt(a, c)
  {
    if |a| > 0 && a[0] == b[0] && b[0] == c[0] {
      LtTransitive(a[1..], b[1..], c[1..]);
    }
  }

  /** Any two different strings are ordered one way or the other. */
  lemma {:induction false} LtTotal(a: string, b: string)
    requires a != b
    ensures Lt(a, b) || Lt(b, a)
  {
    if |a| > 0 && |b| > 0 && a[0] == b[0] {
      assert a == [a[0]] + a[1..] && b == [b[0]] + b[1..];
      LtTotal(a[1..], b[1..]);
    }
  }

  lemma LtAsymmetric(a: string, b: string)
    requires Lt(a, b)
    ensures !Lt(b, a)
  {
    if Lt(b, a) {
      LtTransitive(a, b, a);
      LtIrreflexive(a);
    }
  }

  lemma LeTransitive(a: string, b: string, c: string)
    requires Le(a, b) && Le(b, c)
    ensures Le(a, c)
  {
    if a != b && b != c {
      LtTransitive(a, b, c);
    }
  }

  /** `Le` is the complement of `Lt` with the arguments swapped. */
  lemma LeIffNotLt(a: string, b: string)
    ensures Le(a, b) <==> !Lt(b, a)
  {
    if a == b {
      LtIrreflexive(a);
    } else {
      LtTotal(a, b);
      if Lt(a, b) {
        LtAsymmetric(a, b);
      }
    }
  }

  /**
   * Comparing two concatenations whose first parts have the same length:
   * the first parts decide unless they are equal.
   */
  lemma {:induction false} LtAppend(p: string, x: string, q: string, y: string)
    requires |p| == |q|
    ensures Lt(p + x, q + y) <==> Lt(p, q) || (p == q && Lt(x, y))
  {
    if |p| > 0 {
      assert (p + x)[1..] == p[1..] + x;
      assert (q + y)[1..] == q[1..] + y;
      LtAppend(p[1..], x, q[1..], y);
      assert p == [p[0]] + p[1..] && q == [q[0]] + q[1..];
      assert (p == q) <==> (p[0] == q[0] && p[1..] == q[1..]);
      assert Lt(p + x, q + y) <==> p[0] < q[0] || (p[0] == q[0] && Lt(p[1..] + x, q[1..] + y));
    } else {
      assert p + x == x && q + y == y && p == q;
      assert !Lt(p, q);
    }
  }

  predicate Sorted(s: seq<string>) {
    forall i, j :: 0 <= i < j < |s| ==> Le(s[i], s[j])
  }

  /** Inserting into a sorted sequence before the first element not below `x`. */
  function Insert(x: string, s: seq<string>): seq<string>
  {
    if s == [] then [x]
    else if Le(x, s[0]) then [x] + s
    else [s[0]] + Insert(x, s[1..])
  }

  /** The model of `[...xs].sort()`, an insertion sort. */
  function Sort(s: seq<string>): seq<string>
  {
    if s == [] then [] else Insert(s[0], Sort(s[1..]))
  }

  lemma {:induction false} InsertCorrect(x: string, s: seq<string>)
    requires Sorted(s)
    ensures Sorted(Insert(x, s))
    ensures multiset(Insert(x, s)) == multiset(s) + multiset{x}
  {
    if s == [] {
    } else if Le(x, s[0]) {
      forall j | 0 <= j < |s| ensures Le(x, s[j]) {
        LeTransitive(x, s[0], s[j]);
      }
      ConsSorted(x, s);
    } else {
      LeIffNotLt(x, s[0]);
      var rest := Insert(x, s[1..]);
      SortedTail(s);
      InsertCorrect(x, s[1..]);
      HeadBelowAll(s, x, rest);
      ConsSorted(s[0], rest);
      assert s == [s[0]] + s[1..];
      assert multiset([s[0]] + rest) == multiset{s[0]} + multiset(rest);
    }
  }

  /** A sorted sequence stays sorted under a new head no greater than any element. */
  lemma ConsSorted(h: string, s: seq<string>)
    requires Sorted(s)
    requires forall j :: 0 <= j < |s| ==> Le(h, s[j])
    ensures Sorted([h] + s)
  {
    var t := [h] + s;
    forall i, j | 0 <= i < j < |t| ensures Le(t[i], t[j]) {
      assert t[j] == s[j - 1];
      if i > 0 {
        assert t[i] == s[i - 1];
      }
    }
  }

  /**
   * The head of a sorted sequence is below every element of its tail with
   * one more element no smaller than the head.
   */
  lemma HeadBelowAll(s: seq<string>, x: string, rest: seq<string>)
    requires Sorted(s) && s != [] && Le(s[0], x)
    requires multiset(rest) == multiset(s[1..]) + multiset{x}
    ensures forall j :: 0 <= j < |rest| ==> Le(s[0], rest[j])
  {
    forall j | 0 <= j < |rest| ensures Le(s[0], rest[j]) {
      assert rest[j] in multiset(rest);
      if rest[j] != x {
        assert rest[j] in multiset(s[1..]);
        var k :| 0 <= k < |s[1..]| && s[1..][k] == rest[j];
        assert s[k + 1] == rest[j];
      }
    }
  }

  /** The sorted copy is sorted and holds the same elements. */
  lemma {:induction false} SortCorrect(s: seq<string>)
    ensures Sorted(Sort(s))
    ensures multiset(Sort(s)) == multiset(s)
  {
    if s != [] {
      SortCorrect(s[1..]);
      InsertCorrect(s[0], Sort(s[1..]));
      assert s == [s[0]] + s[1..];
    }
  }

  function Reverse(s: seq<string>): (r: seq<string>)
    ensures |r| == |s|
    ensures forall i :: 0 <= i < |s| ==> r[i] == s[|s| - 1 - i]
  {
    if s == [] then [] else Reverse(s[1..]) + [s[0]]
  }

  lemma LeAntisymmetric(a: string, b: string)
    requires Le(a, b) && Le(b, a)
    ensures a == b
  {
    if a != b {
      LtAsymmetric(a, b);
    }
  }

  /** The first element of a sorted sequence is below every element. */
  lemma SortedHeadLeast(s: seq<string>, v: string)
    requires Sorted(s) && v in s
    ensures Le(s[0], v)
  {
    var k :| 0 <= k < |s| && s[k] == v;
  }

  /** Two sorted sequences with the same elements are equal. */
  lemma {:induction false} SortedUnique(x: seq<string>, y: seq<string>)
    requires Sorted(x) && Sorted(y)
    requires multiset(x) == multiset(y)
    ensures x == y
  {
    assert |x| == |multiset(x)| == |multiset(y)| == |y|;
    if x != [] {
      SortedHeads(x, y);
      SameTails(x, y);
      SortedTail(x);
      SortedTail(y);
      SortedUnique(x[1..], y[1..]);
      assert x == [x[0]] + x[1..] && y == [y[0]] + y[1..];
    }
  }

  /** Two non-empty sorted sequences with the same elements start alike. */
  lemma SortedHeads(x: seq<string>, y: seq<string>)
    requires Sorted(x) && Sorted(y) && multiset(x) == multiset(y) && x != [] && y != []
    ensures x[0] == y[0]
  {
    assert x[0] in multiset(y) && y[0] in multiset(x);
    SortedHeadLeast(y, x[0]);
    SortedHeadLeast(x, y[0]);
    LeAntisymmetric(x[0], y[0]);
  }

  lemma SameTails(x: seq<string>, y: seq<string>)
    requires multiset(x) == multiset(y) && x != [] && y != [] && x[0] == y[0]
    ensures multiset(x[1..]) == multiset(y[1..])
  {
    assert x == [x[0]] + x[1..] && y == [y[0]] + y[1..];
    assert multiset(x[1..]) == multiset(x) - multiset{x[0]};
    assert multiset(y[1..]) == multiset(y) - multiset{y[0]};
  }

  lemma SortedTail(x: seq<string>)
    requires Sorted(x) && x != []
    ensures Sorted(x[1..])
  {
    forall i, j | 0 <= i < j < |x[1..]| ensures Le(x[1..][i], x[1..][j]) {
      assert x[1..][i] == x[i + 1] && x[1..][j] == x[j + 1];
    }
  }

  /** The sorted copy depends only on the elements, not on their order. */
  lemma SortDependsOnlyOnContents(a: seq<string>, b: seq<string>)
    requires multiset(a) == multiset(b)
    ensures Sort(a) == Sort(b)
  {
    SortCorrect(a);
    SortCorrect(b);
    SortedUnique(Sort(a), Sort(b));
  }

  lemma SortSameElements(a: seq<string>, v: string)
    ensures |Sort(a)| == |a|
    ensures v in Sort(a) <==> v in a
  {
    SortCorrect(a);
    assert |Sort(a)| == |multiset(Sort(a))| == |multiset(a)| == |a|;
    assert v in Sort(a) <==> v in multiset(Sort(a));
    assert v in a <==> v in multiset(a);
  }
}
