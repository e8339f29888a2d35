/** Python's sorted(), as far as it is specified: a stable sort by a strict order. */
module Sorting {

  /** x goes behind everything it does not have to precede. */
  function Insert<T>(s: seq<T>, x: T, before: (T, T) -> bool): seq<T> {
    if s == [] then [x]
    else if before(x, s[|s| - 1]) then Insert(s[..|s| - 1], x, before) + [s[|s| - 1]]
    else s + [x]
  }

  function Sorted<T>(s: seq<T>, before: (T, T) -> bool): seq<T> {
    if s == [] then [] else Insert(Sorted(s[..|s| - 1], before), s[|s| - 1], before)
  }

  ghost predicate StrictWeakOrder<T(!new)>(before: (T, T) -> bool) {
    && (forall x, y :: before(x, y) ==> !before(y, x))
    && (forall x, y, z :: before(x, z) ==> before(x, y) || before(y, z))
  }

  ghost predicate InOrder<T>(s: seq<T>, before: (T, T) -> bool) {
    forall i, j :: 0 <= i < j < |s| ==> !before(s[j], s[i])
  }

  lemma {:induction false} InsertIsPermutation<T>(s: seq<T>, x: T, before: (T, T) -> bool)
    ensures multiset(Insert(s, x, before)) == multiset(s) + multiset{x}
  {
    if s != [] {
      assert s == s[..|s| - 1] + [s[|s| - 1]];
      InsertIsPermutation(s[..|s| - 1], x, before);
    }
  }

  lemma {:induction false} SortedIsPermutation<T>(s: seq<T>, before: (T, T) -> bool)
    ensures multiset(Sorted(s, before)) == multiset(s) && |Sorted(s, before)| == |s|
  {
    if s != [] {
      assert s == s[..|s| - 1] + [s[|s| - 1]];
      SortedIsPermutation(s[..|s| - 1], before);
      InsertIsPermutation(Sorted(s[..|s| - 1], before), s[|s| - 1], before);
    }
    assert |multiset(Sorted(s, before))| == |multiset(s)|;
  }

  lemma InsertedFrom<T>(s: seq<T>, x: T, before: (T, T) -> bool, i: nat)
    requires i < |Insert(s, x, before)|
    ensures Insert(s, x, before)[i] == x || exists j :: 0 <= j < |s| && s[j] == Insert(s, x, before)[i]
  {
    InsertIsPermutation(s, x, before);
    assert Insert(s, x, before)[i] in multiset(Insert(s, x, before));
  }

  lemma {:induction false} InsertKeepsOrder<T(!new)>(s: seq<T>, x: T, before: (T, T) -> bool)
    requires StrictWeakOrder(before) && InOrder(s, before)
    ensures InOrder(Insert(s, x, before), before)
  {
    if s != [] {
      var front, last := s[..|s| - 1], s[|s| - 1];
      if before(x, last) {
        InsertKeepsOrder(front, x, before);
        var r := Insert(front, x, before);
        forall i | 0 <= i < |r| ensures !before(last, r[i]) {
          InsertedFrom(front, x, before, i);
        }
      }
    }
  }

  lemma {:induction false} SortedIsInOrder<T(!new)>(s: seq<T>, before: (T, T) -> bool)
    requires StrictWeakOrder(before)
    ensures InOrder(Sorted(s, before), before)
  {
    if s != [] {
      SortedIsInOrder(s[..|s| - 1], before);
      InsertKeepsOrder(Sorted(s[..|s| - 1], before), s[|s| - 1], before);
    }
  }

  ghost predicate Strictly<T>(s: seq<T>, before: (T, T) -> bool) {
    forall i, j :: 0 <= i < j < |s| ==> before(s[i], s[j])
  }

  lemma SameLast<T(!new)>(s: seq<T>, t: seq<T>, before: (T, T) -> bool)
    requires StrictWeakOrder(before) && Strictly(s, before) && Strictly(t, before)
    requires s != [] && t != [] && s[|s| - 1] in t && t[|t| - 1] in s
    ensures s[|s| - 1] == t[|t| - 1]
  {
    var i :| 0 <= i < |t| && t[i] == s[|s| - 1];
    var j :| 0 <= j < |s| && s[j] == t[|t| - 1];
    assert i < |t| - 1 ==> before(s[|s| - 1], t[|t| - 1]);
    assert j < |s| - 1 ==> before(t[|t| - 1], s[|s| - 1]);
  }

  lemma WithoutLast<T>(s: seq<T>)
    requires s != []
    ensures multiset(s[..|s| - 1]) == multiset(s) - multiset{s[|s| - 1]}
  {
    assert s == s[..|s| - 1] + [s[|s| - 1]];
  }

  lemma FromFront<T>(s: seq<T>, t: seq<T>)
    requires |s| == |t| > 0 && s[..|s| - 1] == t[..|t| - 1] && s[|s| - 1] == t[|t| - 1]
    ensures s == t
  {
    assert s == s[..|s| - 1] + [s[|s| - 1]] && t == t[..|t| - 1] + [t[|t| - 1]];
  }

  lemma SameElements<T>(s: seq<T>, t: seq<T>)
    requires multiset(s) == multiset(t)
    ensures |s| == |t| && forall x :: x in s <==> x in t
  {
    assert |multiset(s)| == |multiset(t)|;
    forall x ensures x in s <==> x in t {
      assert x in s <==> x in multiset(s);
      assert x in t <==> x in multiset(t);
    }
  }

  /** There is one way to sort elements that never tie. */
  lemma {:induction false} StrictlySortedIsUnique<T(!new)>(s: seq<T>, t: seq<T>, before: (T, T) -> bool)
    requires StrictWeakOrder(before) && Strictly(s, before) && Strictly(t, before) && multiset(s) == multiset(t)
    ensures s == t
  {
    SameElements(s, t);
    if s != [] {
      SameLast(s, t, before);
      WithoutLast(s);
      WithoutLast(t);
      StrictlySortedIsUnique(s[..|s| - 1], t[..|t| - 1], before);
      FromFront(s, t);
    }
  }

  /** Python's order of strings: by the first character that differs, a prefix first. */
  predicate TextLess(a: string, b: string) {
    if a == "" then b != ""
    else b != "" && (a[0] < b[0] || (a[0] == b[0] && TextLess(a[1..], b[1..])))
  }

  /** Behind a common beginning the smaller character decides; the beginning itself comes first. */
  lemma {:induction false} TextLessDecided(common: string, c: char, d: char, x: string, y: string)
    ensures c < d ==> TextLess(common + [c] + x, common + [d] + y)
    ensures TextLess(common, common + [c] + x)
  {
    if common != "" {
      TextLessDecided(common[1..], c, d, x, y);
      assert (common + [c] + x)[1..] == common[1..] + [c] + x;
      assert (common + [d] + y)[1..] == common[1..] + [d] + y;
    }
  }

  lemma {:induction false} TextLessAsymmetric(a: string, b: string)
    requires TextLess(a, b)
    ensures !TextLess(b, a)
  {
    if a != "" && a[0] == b[0] {
      TextLessAsymmetric(a[1..], b[1..]);
    }
  }

  lemma {:induction false} TextLessWeak(a: string, b: string, c: string)
    requires TextLess(a, c)
    ensures TextLess(a, b) || TextLess(b, c)
  {
    if a != "" && b != "" && a[0] == c[0] == b[0] {
      TextLessWeak(a[1..], b[1..], c[1..]);
    }
  }

  lemma {:induction false} TextLessTotal(a: string, b: string)
    requires a != b
    ensures TextLess(a, b) || TextLess(b, a)
  {
    if a != "" && b != "" && a[0] == b[0] {
      assert a == [a[0]] + a[1..] && b == [b[0]] + b[1..];
      TextLessTotal(a[1..], b[1..]);
    }
  }
}
