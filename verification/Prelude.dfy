/** Notions that several modules share. */
module Prelude {

  datatype Option<T> = None | Some(value: T)

  ghost predicate NoDuplicates<T>(s: seq<T>) {
    forall i, j :: 0 <= i < j < |s| ==> s[i] != s[j]
  }

  lemma Associative<T>(a: seq<T>, b: seq<T>, c: seq<T>)
    ensures a + b + c == a + (b + c)
  {
  }

  function Flatten<T>(blocks: seq<seq<T>>): seq<T> {
    if blocks == [] then [] else Flatten(blocks[..|blocks| - 1]) + blocks[|blocks| - 1]
  }

  /** `q` added `k` times. */
  function Times(q: int, k: nat): (t: int)
    ensures q >= 0 ==> t >= 0
  {
    if k == 0 then 0 else Times(q, k - 1) + q
  }

  lemma {:induction false} TimesIsProduct(q: int, k: nat)
    ensures Times(q, k) == q * k
  {
    if k > 0 {
      TimesIsProduct(q, k - 1);
    }
  }

  lemma TimesBelow(x: int, y: int, m: nat)
    requires x * m < y * m
    ensures x < y
  {
  }

  lemma TimesBefore(k: nat, n: nat, m: nat)
    requires k < n
    ensures 0 <= k * m && k * m + m <= n * m
  {
    assert (k + 1) * m <= n * m;
  }

  lemma SmallMultiple(m: int, e: int)
    requires -m < e * m < m
    ensures e == 0
  {
  }

  lemma QuotientIs(p: int, m: int, d: int, r: int)
    requires p == d * m + r && 0 <= r < m
    ensures p / m == d && p % m == r
  {
    assert (p / m - d) * m == p / m * m - d * m;
    SmallMultiple(m, p / m - d);
  }
}
