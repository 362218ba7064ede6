/**
  The ranking order of the report (slack-emoji-ranking.go:162-182): an
  `Entry` pairs a reaction name with its total, and `List.Less` puts higher
  totals first and breaks ties by name in ascending string order. `Sort`
  stands for the library sort that `main` calls and is written, like it,
  with nothing but `Less` and `Swap`.
  */
module Ranking {

  import opened GoInt

  /** Go's `<` on strings. Go compares the UTF-8 bytes; UTF-8 preserves the
      order of code points, so comparing characters is the same thing. */
  predicate LexLess(a: string, b: string)
    decreases |a|
  {
    if |a| == 0 then |b| != 0
    else if |b| == 0 then false
    else if a[0] != b[0] then a[0] < b[0]
    else LexLess(a[1..], b[1..])
  }

  /** The usual definition: `a` is a proper prefix of `b`, or `a` has the
      smaller character at the first position where the two differ. */
  ghost predicate FirstDifferenceLess(a: string, b: string)
  {
    (|a| < |b| && a == b[..|a|])
    || exists k :: 0 <= k < |a| && k < |b| && a[..k] == b[..k] && a[k] < b[k]
  }

  lemma FirstDifferenceHead(a: string, b: string)
    requires |a| > 0 && |b| > 0 && a[0] != b[0]
    ensures FirstDifferenceLess(a, b) <==> a[0] < b[0]
  {
    assert a[..0] == b[..0];
    assert |a| < |b| ==> b[..|a|][0] == b[0];
    if exists k :: 0 <= k < |a| && k < |b| && a[..k] == b[..k] && a[k] < b[k] {
      var k :| 0 <= k < |a| && k < |b| && a[..k] == b[..k] && a[k] < b[k];
      assert k == 0 || a[..k][0] == b[..k][0];
    }
  }

  lemma FirstDifferenceTail(a: string, b: string)
    requires |a| > 0 && |b| > 0 && a[0] == b[0]
    ensures FirstDifferenceLess(a, b) <==> FirstDifferenceLess(a[1..], b[1..])
  {
    FirstDifferenceTailPrefix(a, b);
    if FirstDifferenceLess(a[1..], b[1..]) {
      FirstDifferenceTailUp(a, b);
    }
    if FirstDifferenceLess(a, b) {
      FirstDifferenceTailDown(a, b);
    }
  }

  lemma FirstDifferenceTailPrefix(a: string, b: string)
    requires |a| > 0 && |b| > 0 && a[0] == b[0]
    ensures (|a| < |b| && a == b[..|a|]) <==> (|a| - 1 < |b| - 1 && a[1..] == b[1..][..|a| - 1])
  {
    var a', b' := a[1..], b[1..];
    assert |a'| < |b'| && a' == b'[..|a'|] ==> a == b[..|a|];
    assert |a| < |b| && a == b[..|a|] ==> a' == b'[..|a'|];
  }

  lemma FirstDifferenceTailUp(a: string, b: string)
    requires |a| > 0 && |b| > 0 && a[0] == b[0]
    requires FirstDifferenceLess(a[1..], b[1..])
    ensures FirstDifferenceLess(a, b)
  {
    var a', b' := a[1..], b[1..];
    FirstDifferenceTailPrefix(a, b);
    if exists k :: 0 <= k < |a'| && k < |b'| && a'[..k] == b'[..k] && a'[k] < b'[k] {
      var k :| 0 <= k < |a'| && k < |b'| && a'[..k] == b'[..k] && a'[k] < b'[k];
      assert a[..k + 1] == [a[0]] + a'[..k] && b[..k + 1] == [b[0]] + b'[..k];
      assert a[k + 1] < b[k + 1];
    }
  }

  lemma FirstDifferenceTailDown(a: string, b: string)
    requires |a| > 0 && |b| > 0 && a[0] == b[0]
    requires FirstDifferenceLess(a, b)
    ensures FirstDifferenceLess(a[1..], b[1..])
  {
    var a', b' := a[1..], b[1..];
    FirstDifferenceTailPrefix(a, b);
    if exists k :: 0 <= k < |a| && k < |b| && a[..k] == b[..k] && a[k] < b[k] {
      var k :| 0 <= k < |a| && k < |b| && a[..k] == b[..k] && a[k] < b[k];
      assert k > 0;
      assert a'[..k - 1] == a[1..k] == b[1..k] == b'[..k - 1];
      assert a'[k - 1] < b'[k - 1];
    }
  }

  /** LexLess is the first-difference order Go uses. */
  lemma {:induction false} LexLessIsFirstDifference(a: string, b: string)
    ensures LexLess(a, b) <==> FirstDifferenceLess(a, b)
    decreases |a|
  {
    if |a| > 0 && |b| > 0 {
      if a[0] != b[0] {
        FirstDifferenceHead(a, b);
      } else {
        FirstDifferenceTail(a, b);
        LexLessIsFirstDifference(a[1..], b[1..]);
      }
    }
  }

  lemma {:induction false} LexIrreflexive(a: string)
    ensures !LexLess(a, a)
    decreases |a|
  {
    if |a| > 0 {
      LexIrreflexive(a[1..]);
    }
  }

  lemma {:induction false} LexTransitive(a: string, b: string, c: string)
    requires LexLess(a, b) && LexLess(b, c)
    ensures LexLess(a, c)
    decreases |a|
  {
    if |a| > 0 && a[0] == b[0] && b[0] == c[0] {
      LexTransitive(a[1..], b[1..], c[1..]);
    }
  }

  lemma {:induction false} LexTotal(a: string, b: string)
    requires a != b
    ensures LexLess(a, b) || LexLess(b, a)
    decreases |a|
  {
    if |a| > 0 && |b| > 0 && a[0] == b[0] {
      assert a == [a[0]] + a[1..] && b == [b[0]] + b[1..];
      LexTotal(a[1..], b[1..]);
    }
  }

  lemma LexAsymmetric(a: string, b: string)
    requires LexLess(a, b)
    ensures !LexLess(b, a)
  {
    if LexLess(b, a) {
      LexTransitive(a, b, a);
      LexIrreflexive(a);
    }
  }

  /** One row of the ranking: a reaction name and its total. */
  datatype Entry = Entry(name: string, value: Int)

  /** `List.Less`: `x` ranks before `y`. */
  predicate Less(x: Entry, y: Entry)
  {
    if x.value == y.value then LexLess(x.name, y.name) else x.value > y.value
  }

  /** No entry ranks before itself. */
  lemma LessIrreflexive(x: Entry)
    ensures !Less(x, x)
  {
    LexIrreflexive(x.name);
  }

  lemma LessAsymmetric(x: Entry, y: Entry)
    requires Less(x, y)
    ensures !Less(y, x)
  {
    if x.value == y.value {
      LexAsymmetric(x.name, y.name);
    }
  }

  lemma LessTransitive(x: Entry, y: Entry, z: Entry)
    requires Less(x, y) && Less(y, z)
    ensures Less(x, z)
  {
    if x.value == y.value == z.value {
      LexTransitive(x.name, y.name, z.name);
    }
  }

  /** Any two different entries are ordered one way or the other. */
  lemma LessTotal(x: Entry, y: Entry)
    requires x != y
    ensures Less(x, y) || Less(y, x)
  {
    if x.value == y.value {
      LexTotal(x.name, y.name);
    }
  }

  /** For entries with different names, exactly one ranks first. */
  lemma LessExactlyOne(x: Entry, y: Entry)
    requires x.name != y.name
    ensures Less(x, y) != Less(y, x)
  {
    LessTotal(x, y);
    if Less(x, y) {
      LessAsymmetric(x, y);
    }
  }

  /** "Does not rank after" is transitive. */
  lemma NotLessTransitive(x: Entry, y: Entry, z: Entry)
    requires !Less(y, x) && !Less(z, y)
    ensures !Less(z, x)
  {
    if x != y && y != z {
      LessTotal(x, y);
      LessTotal(y, z);
      if Less(z, x) {
        LessTransitive(x, y, z);
        LessAsymmetric(x, z);
      }
    }
  }

  /** Two entries neither of which ranks first are the same entry. */
  lemma NotLessAntisymmetric(x: Entry, y: Entry)
    requires !Less(x, y) && !Less(y, x)
    ensures x == y
  {
    if x != y {
      LessTotal(x, y);
    }
  }

  /** What `sort.Sort` produces: no entry ranks before an earlier one. */
  predicate Sorted(s: seq<Entry>)
  {
    forall p, q :: 0 <= p < q < |s| ==> !Less(s[q], s[p])
  }

  /** With distinct names the sorted order is strict: each entry ranks
      before every later one. */
  lemma SortedStrict(s: seq<Entry>, p: int, q: int)
    requires Sorted(s)
    requires forall i, j :: 0 <= i < j < |s| ==> s[i].name != s[j].name
    requires 0 <= p < q < |s|
    ensures Less(s[p], s[q])
  {
    LessExactlyOne(s[p], s[q]);
  }

  /** Because the order is total on entries, there is only one sorted
      arrangement of a collection of entries: any correct sort gives the
      same list, whatever order the entries came in. */
  lemma {:induction false} SortedUnique(s: seq<Entry>, t: seq<Entry>)
    requires Sorted(s) && Sorted(t)
    requires multiset(s) == multiset(t)
    ensures s == t
    decreases |s|
  {
    assert |s| == |multiset(s)| == |multiset(t)| == |t|;
    if |s| > 0 {
      var x, y := s[0], t[0];
      assert x in multiset(t);
      var k :| 0 <= k < |t| && t[k] == x;
      assert y in multiset(s);
      var m :| 0 <= m < |s| && s[m] == y;
      LessIrreflexive(x);
      LessIrreflexive(y);
      assert k > 0 ==> !Less(t[k], t[0]);
      assert m > 0 ==> !Less(s[m], s[0]);
      NotLessAntisymmetric(x, y);
      MultisetTail(s, t);
      SortedTail(s);
      SortedTail(t);
      SortedUnique(s[1..], t[1..]);
    }
  }

  lemma MultisetTail(s: seq<Entry>, t: seq<Entry>)
    requires |s| > 0 && |t| > 0 && s[0] == t[0]
    requires multiset(s) == multiset(t)
    ensures multiset(s[1..]) == multiset(t[1..])
  {
    assert s == [s[0]] + s[1..] && t == [t[0]] + t[1..];
    var ms, mt := multiset(s[1..]), multiset(t[1..]);
    assert multiset(s) == multiset{s[0]} + ms;
    assert multiset(t) == multiset{s[0]} + mt;
    assert forall e :: ms[e] == multiset(s)[e] - multiset{s[0]}[e] == mt[e];
  }

  lemma SortedTail(s: seq<Entry>)
    requires Sorted(s) && |s| > 0
    ensures Sorted(s[1..])
  {
    forall p, q | 0 <= p < q < |s| - 1 ensures !Less(s[1..][q], s[1..][p]) {
      assert s[1..][q] == s[q + 1] && s[1..][p] == s[p + 1];
    }
  }

  /** `List.Swap`: exchanges two elements; nothing else moves. */
  method Swap(a: array<Entry>, i: int, j: int)
    requires 0 <= i < a.Length && 0 <= j < a.Length
    modifies a
    ensures a[..] == old(a[..])[i := old(a[j])][j := old(a[i])]
    ensures multiset(a[..]) == multiset(old(a[..]))
  {
    a[i], a[j] := a[j], a[i];
  }

  /** `sort.Sort(order)` on the `List` order: an insertion sort that only
      compares with `Less` and only moves entries with `Swap`. */
  method Sort(a: array<Entry>)
    modifies a
    ensures Sorted(a[..])
    ensures multiset(a[..]) == multiset(old(a[..]))
  {
    var i := 0;
    while i < a.Length
      invariant 0 <= i <= a.Length
      invariant forall p, q :: 0 <= p < q < i ==> !Less(a[q], a[p])
      invariant multiset(a[..]) == multiset(old(a[..]))
    {
      var j := i;
      while j > 0 && Less(a[j], a[j - 1])
        invariant 0 <= j <= i
        invariant forall p, q :: 0 <= p < q <= i && p != j && q != j ==> !Less(a[q], a[p])
        invariant forall q :: j < q <= i ==> Less(a[j], a[q])
        invariant multiset(a[..]) == multiset(old(a[..]))
      {
        Swap(a, j - 1, j);
        j := j - 1;
      }
      forall p, q | 0 <= p < q <= i ensures !Less(a[q], a[p]) {
        if p == j {
          LessAsymmetric(a[j], a[q]);
        } else if q == j && p < j - 1 {
          NotLessTransitive(a[p], a[j - 1], a[j]);
        }
      }
      i := i + 1;
    }
  }
}
