/** The answer to a parameter set is a list of numbers; the search engines add them up and look for
the smallest sum. */
module Measurements {

  function Sum(values: seq<real>): real {
    if values == [] then 0.0 else Sum(values[..|values| - 1]) + values[|values| - 1]
  }

  lemma {:induction false} SumConcat(a: seq<real>, b: seq<real>)
    ensures Sum(a + b) == Sum(a) + Sum(b)
  {
    if b == [] {
      assert a + b == a;
    } else {
      SumConcat(a, b[..|b| - 1]);
      assert (a + b)[..|a + b| - 1] == a + b[..|b| - 1];
    }
  }

  lemma SumOne(x: real)
    ensures Sum([x]) == x
  {
    assert [x][..0] == [];
  }

  /** As many values, none of them larger. */
  ghost predicate NoneLarger(a: seq<real>, b: seq<real>) {
    |a| == |b| && forall i :: 0 <= i < |a| ==> a[i] <= b[i]
  }

  /** As many values, none of them larger and one smaller. */
  ghost predicate Beats(a: seq<real>, b: seq<real>) {
    NoneLarger(a, b) && exists i :: 0 <= i < |a| && a[i] < b[i]
  }

  lemma {:induction false} SumIsMonotone(a: seq<real>, b: seq<real>)
    requires NoneLarger(a, b)
    ensures Sum(a) <= Sum(b)
    ensures Beats(a, b) ==> Sum(a) < Sum(b)
  {
    if a != [] {
      var n := |a| - 1;
      SumIsMonotone(a[..n], b[..n]);
      if i :| 0 <= i < |a| && a[i] < b[i] {
        assert i < n ==> a[..n][i] < b[..n][i];
      }
    }
  }

  /** Values with a sum at least as small are not beaten. */
  lemma SmallerIsUnbeaten(a: seq<real>, b: seq<real>)
    requires Sum(a) <= Sum(b)
    ensures !Beats(b, a)
  {
    if Beats(b, a) {
      SumIsMonotone(b, a);
    }
  }

  /** The position of the first smallest number. */
  function ArgMin(s: seq<real>): (k: nat)
    requires s != []
    ensures k < |s|
    ensures forall j :: 0 <= j < |s| ==> s[k] <= s[j]
    ensures forall j :: 0 <= j < k ==> s[k] < s[j]
  {
    if |s| == 1 then 0
    else
      var front := ArgMin(s[..|s| - 1]);
      assert s[front] == s[..|s| - 1][front];
      if s[|s| - 1] < s[front] then |s| - 1 else front
  }

  method AddUp(values: seq<real>) returns (total: real)
    ensures total == Sum(values)
  {
    total := 0.0;
    for i := 0 to |values|
      invariant total == Sum(values[..i])
    {
      assert values[..i + 1][..i] == values[..i];
      total := total + values[i];
    }
    assert values[..|values|] == values;
  }
}
