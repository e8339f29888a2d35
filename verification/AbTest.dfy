/** Coordinate descent over a list of knobs (analysis/optimizer/abtest_tuning_manager.py). One stage
per knob tries each of its items, with the best items found so far before it and the first items
after it, and keeps the first best one. The benchmark is a function of the vector tried; its answer
is a list of numbers, which the manager adds up. */
module AbTest {
  import opened Measurements
  import opened Prelude

  type Vector = seq<string>

  // ---- what the descent should compute ----

  /** The knobs' item lists, and the benchmark. */
  datatype Setup = Setup(items: seq<seq<string>>, bench: Vector -> seq<real>) {

    ghost predicate Valid() {
      forall i :: 0 <= i < |items| ==> items[i] != []
    }

    function Default(): (v: Vector)
      requires Valid()
    {
      seq(|items|, i requires 0 <= i < |items| => items[i][0])
    }

    function Perf(v: Vector): real {
      Sum(bench(v))
    }

    /** The vector of one trial of stage |best|, where the best items before it are known. */
    function Trial(best: Vector, item: string): (v: Vector)
      requires Valid() && |best| < |items|
    {
      best + [item] + Default()[|best| + 1..]
    }

    /** The trials of stage |best|, and their results. */
    function Stage(best: Vector): (trials: seq<Vector>)
      requires Valid() && |best| < |items|
    {
      seq(|items[|best|]|, j requires 0 <= j < |items[|best|]| => Trial(best, items[|best|][j]))
    }

    function Results(best: Vector): (results: seq<real>)
      requires Valid() && |best| < |items|
      ensures results != []
    {
      seq(|items[|best|]|, j requires 0 <= j < |items[|best|]| => Perf(Trial(best, items[|best|][j])))
    }

    /** The best items of the first n knobs. */
    function Best(n: nat): (best: Vector)
      requires Valid() && n <= |items|
      ensures |best| == n
    {
      if n == 0 then [] else Best(n - 1) + [items[n - 1][ArgMin(Results(Best(n - 1)))]]
    }

    /** The smallest result of a stage. */
    function StageMin(n: nat): real
      requires Valid() && n < |items|
    {
      Results(Best(n))[ArgMin(Results(Best(n)))]
    }

    /** Every vector tried in the first n stages, in order, and their results. */
    function Trials(n: nat): seq<Vector>
      requires Valid() && n <= |items|
    {
      if n == 0 then [] else Trials(n - 1) + Stage(Best(n - 1))
    }

    function Measured(n: nat): seq<real>
      requires Valid() && n <= |items|
    {
      if n == 0 then [] else Measured(n - 1) + Results(Best(n - 1))
    }

    function ItemCount(n: nat): nat
      requires n <= |items|
    {
      if n == 0 then 0 else ItemCount(n - 1) + |items[n - 1]|
    }
  }

  // ---- the descent ----

  /** The best trial of a stage, completed with first items, is tried again by the next stage. */
  lemma BestIsRetried(s: Setup, n: nat)
    requires s.Valid() && n + 1 < |s.items|
    ensures s.Trial(s.Best(n + 1), s.items[n + 1][0]) == s.Trial(s.Best(n), s.Best(n + 1)[n])
  {
    var d := s.Default();
    assert d[n + 1..] == [s.items[n + 1][0]] + d[n + 2..];
  }

  lemma StageMinIsPerf(s: Setup, n: nat)
    requires s.Valid() && n < |s.items|
    ensures s.StageMin(n) == s.Perf(s.Trial(s.Best(n), s.Best(n + 1)[n]))
  {
  }

  /** The minimum of a stage is never above the minimum of an earlier one. */
  lemma {:induction false} StageMinimaDescend(s: Setup, m: nat, n: nat)
    requires s.Valid() && m <= n < |s.items|
    ensures s.StageMin(n) <= s.StageMin(m)
  {
    if m < n {
      StageMinimaDescend(s, m, n - 1);
      StageMinIsPerf(s, n - 1);
      BestIsRetried(s, n - 1);
      assert s.Results(s.Best(n))[0] == s.StageMin(n - 1);
    }
  }

  /** The final best vector is the best trial of the last stage. */
  lemma BestIsLastMin(s: Setup)
    requires s.Valid() && s.items != []
    ensures s.Perf(s.Best(|s.items|)) == s.StageMin(|s.items| - 1)
  {
    var n := |s.items| - 1;
    StageMinIsPerf(s, n);
    assert s.Trial(s.Best(n), s.Best(n + 1)[n]) == s.Best(n + 1);
  }

  lemma {:induction false} MeasuredPerTrial(s: Setup, n: nat)
    requires s.Valid() && n <= |s.items|
    ensures |s.Trials(n)| == |s.Measured(n)| == s.ItemCount(n)
    ensures forall k :: 0 <= k < |s.Trials(n)| ==> s.Measured(n)[k] == s.Perf(s.Trials(n)[k])
  {
    if n > 0 {
      MeasuredPerTrial(s, n - 1);
    }
  }

  /** Nothing tried in the first n stages beats the minimum of the last of them. */
  lemma {:induction false} NothingBeatsStageMin(s: Setup, n: nat)
    requires s.Valid() && 0 < n <= |s.items|
    ensures forall k :: 0 <= k < |s.Measured(n)| ==> s.StageMin(n - 1) <= s.Measured(n)[k]
  {
    if n > 1 {
      NothingBeatsStageMin(s, n - 1);
      StageMinimaDescend(s, n - 2, n - 1);
    }
    forall k | 0 <= k < |s.Measured(n)| ensures s.StageMin(n - 1) <= s.Measured(n)[k] {
      var before := s.Measured(n - 1);
      if k < |before| {
        assert s.Measured(n)[k] == before[k];
      } else {
        assert s.Measured(n)[k] == s.Results(s.Best(n - 1))[k - |before|];
      }
    }
  }

  /** The best vector of the whole search attains the smallest result over every vector tried, and
  was itself tried. */
  lemma BestAttainsMinimum(s: Setup)
    requires s.Valid() && s.items != []
    ensures var n := |s.items|;
      && s.Best(n) in s.Trials(n)
      && (forall k :: 0 <= k < |s.Trials(n)| ==> s.Perf(s.Best(n)) <= s.Perf(s.Trials(n)[k]))
      && forall k :: 0 <= k < |s.Trials(n)| ==> !Beats(s.bench(s.Trials(n)[k]), s.bench(s.Best(n)))
  {
    var n := |s.items|;
    NothingBeatsStageMin(s, n);
    BestIsLastMin(s);
    MeasuredPerTrial(s, n);
    var last := ArgMin(s.Results(s.Best(n - 1)));
    assert s.Stage(s.Best(n - 1))[last] == s.Best(n);
    assert s.Trials(n)[|s.Trials(n - 1)| + last] == s.Best(n);
    forall k | 0 <= k < |s.Trials(n)| ensures !Beats(s.bench(s.Trials(n)[k]), s.bench(s.Best(n))) {
      SmallerIsUnbeaten(s.bench(s.Best(n)), s.bench(s.Trials(n)[k]));
    }
  }

  /** The vector that get_best_params picks, the first with the smallest result of all, measures
  the same as the final best vector. */
  lemma PickedMeasuresAsBest(s: Setup)
    requires s.Valid() && s.items != []
    ensures |s.Measured(|s.items|)| == |s.Trials(|s.items|)| > 0
    ensures s.Perf(s.Trials(|s.items|)[ArgMin(s.Measured(|s.items|))]) == s.Perf(s.Best(|s.items|))
  {
    BestAttainsMinimum(s);
    MeasuredPerTrial(s, |s.items|);
    var k :| 0 <= k < |s.Trials(|s.items|)| && s.Trials(|s.items|)[k] == s.Best(|s.items|);
  }

  /** One more trial of a stage. */
  lemma NextTrial(s: Setup, best: Vector, j: nat)
    requires s.Valid() && |best| < |s.items| && j < |s.items[|best|]|
    ensures var trial := s.Trial(best, s.items[|best|][j]);
      && s.Stage(best)[..j + 1] == s.Stage(best)[..j] + [trial]
      && s.Results(best)[..j + 1] == s.Results(best)[..j] + [s.Perf(trial)]
  {
  }

  // ---- the manager ----

  /** The number of items of all knobs, and the first item of each. */
  method FirstItems(setup: Setup) returns (total: nat, first: Vector)
    requires setup.Valid()
    ensures total == setup.ItemCount(|setup.items|) && first == setup.Default()
  {
    total, first := 0, [];
    for i := 0 to |setup.items|
      invariant total == setup.ItemCount(i) && first == setup.Default()[..i]
    {
      total := total + |setup.items[i]|;
      first := first + [setup.items[i][0]];
    }
  }

  class ABtestTuningManager {
    const setup: Setup
    const defaultVec: Vector
    var index: nat
    var bestVec: Vector
    var options: seq<Vector>
    var performance: seq<real>
    var maxEval: nat

    /** Between stages: index many are done. */
    ghost predicate Valid()
      reads this
    {
      && setup.Valid() && defaultVec == setup.Default()
      && index <= |setup.items|
      && bestVec == setup.Best(index) + setup.Default()[index..]
      && options == setup.Trials(index) && performance == setup.Measured(index)
      && maxEval == setup.ItemCount(|setup.items|)
    }

    /** The budget announced is the number of items. Every knob must have an item, as the first
    one is its default. */
    constructor (setup: Setup)
      requires setup.Valid()
      ensures Valid() && this.setup == setup && index == 0
    {
      var total, first := FirstItems(setup);
      this.setup := setup;
      index, options, performance, maxEval := 0, [], [], total;
      defaultVec, bestVec := first, first;
      new;
      assert [] + first[0..] == first;
    }

    method ConstructSetKnobValVec(item: string) returns (v: Vector)
      requires setup.Valid() && defaultVec == setup.Default() && index < |setup.items| && |bestVec| == |setup.items|
      ensures v == setup.Trial(bestVec[..index], item)
    {
      v := [];
      for i := 0 to index
        invariant v == bestVec[..i]
      {
        v := v + [bestVec[i]];
      }
      v := v + [item];
      for i := index + 1 to |setup.items|
        invariant v == bestVec[..index] + [item] + defaultVec[index + 1..i]
      {
        v := v + [defaultVec[i]];
      }
    }

    method TestPerformanceOneAbtuningItem(item: string) returns (result: real)
      requires setup.Valid() && defaultVec == setup.Default() && index < |setup.items| && |bestVec| == |setup.items|
      modifies this`options
      ensures options == old(options) + [setup.Trial(bestVec[..index], item)]
      ensures result == setup.Perf(setup.Trial(bestVec[..index], item))
    {
      var v := ConstructSetKnobValVec(item);
      options := options + [v];
      result := AddUp(setup.bench(v));
    }

    /** The trials of one stage. */
    method TestItems() returns (results: seq<real>)
      requires Valid() && index < |setup.items|
      modifies this`options, this`performance
      ensures results == setup.Results(setup.Best(index))
      ensures options == setup.Trials(index + 1) && performance == setup.Measured(index + 1)
    {
      var items := setup.items[index];
      ghost var best := setup.Best(index);
      assert bestVec[..index] == best;
      results := [];
      for j := 0 to |items|
        invariant options == setup.Trials(index) + setup.Stage(best)[..j]
        invariant results == setup.Results(best)[..j]
        invariant performance == setup.Measured(index) + results
      {
        NextTrial(setup, best, j);
        Associative(setup.Trials(index), setup.Stage(best)[..j], [setup.Trial(best, items[j])]);
        Associative(setup.Measured(index), results, [setup.Perf(setup.Trial(best, items[j]))]);
        var result := TestPerformanceOneAbtuningItem(items[j]);
        performance := performance + [result];
        results := results + [result];
      }
      assert results == setup.Results(best);
    }

    /** One stage: index advances in the caller. */
    method DoOneAbtestTuning()
      requires Valid() && index < |setup.items|
      modifies this`options, this`performance, this`bestVec
      ensures options == setup.Trials(index + 1) && performance == setup.Measured(index + 1)
      ensures bestVec == setup.Best(index + 1) + setup.Default()[index + 1..]
    {
      var results := TestItems();
      var bestIndex := ArgMin(results);
      bestVec := bestVec[index := setup.items[index][bestIndex]];
    }

    /** The whole search. */
    method DoAbtestTuning() returns (tried: seq<Vector>, measured: seq<real>)
      requires Valid() && index == 0
      modifies this
      ensures Valid() && index == |setup.items| && bestVec == setup.Best(|setup.items|)
      ensures tried == setup.Trials(|setup.items|) && measured == setup.Measured(|setup.items|)
      ensures |tried| == |measured| == maxEval == old(maxEval)
    {
      index := 0;
      while index < |setup.items|
        invariant Valid()
        invariant maxEval == old(maxEval)
      {
        DoOneAbtestTuning();
        index := index + 1;
      }
      MeasuredPerTrial(setup, |setup.items|);
      return options, performance;
    }

    /** After the search: a vector tried, whose result is the smallest of all and that of the best
    vector. Without knobs there is no result to pick. */
    method GetBestParams() returns (v: Vector)
      requires Valid() && index == |setup.items| > 0
      ensures v in options && setup.Perf(v) == setup.Perf(bestVec)
      ensures forall k :: 0 <= k < |options| ==> setup.Perf(v) <= setup.Perf(options[k])
      ensures forall k :: 0 <= k < |options| ==> !Beats(setup.bench(options[k]), setup.bench(v))
    {
      BestAttainsMinimum(setup);
      PickedMeasuresAsBest(setup);
      assert bestVec == setup.Best(index);
      v := options[ArgMin(performance)];
      forall k | 0 <= k < |options| ensures !Beats(setup.bench(options[k]), setup.bench(v)) {
        SmallerIsUnbeaten(setup.bench(v), setup.bench(options[k]));
      }
    }
  }
}
