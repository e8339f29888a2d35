/** Choosing the important parameters over several cycles, and tuning those (common/tuning/optimizer.go). */
module FeatureFilter {
  import opened Prelude
  import opened Texts

  type Ranking = seq<(string, real)>

  function NameSet(list: Ranking): set<string> {
    if list == [] then {} else NameSet(list[..|list| - 1]) + {list[|list| - 1].0}
  }

  ghost predicate DistinctNames(list: Ranking) {
    |NameSet(list)| == |list|
  }

  ghost predicate Descending(list: Ranking) {
    forall i, j :: 0 <= i < j < |list| ==> list[i].1 >= list[j].1
  }

  lemma {:induction false} NamesConcat(a: Ranking, b: Ranking)
    ensures NameSet(a + b) == NameSet(a) + NameSet(b) && |NameSet(b)| <= |b|
  {
    if b == [] {
      assert a + b == a;
    } else {
      assert (a + b)[..|a + b| - 1] == a + b[..|b| - 1];
      NamesConcat(a, b[..|b| - 1]);
    }
  }

  /** Two lists without repetition that share no name make one, and the other way round. */
  lemma DistinctConcat(a: Ranking, b: Ranking)
    ensures DistinctNames(a + b) <==> DistinctNames(a) && DistinctNames(b) && NameSet(a) !! NameSet(b)
  {
    NamesConcat(a, b);
    NamesConcat([], a);
    assert [] + a == a;
    var x, y := NameSet(a), NameSet(b);
    assert |x + y| == |x| + |y| - |x * y|;
    assert |x * y| == 0 <==> x * y == {};
  }

  lemma FirstNamed(list: Ranking)
    ensures list != [] ==> list[0].0 in NameSet(list)
  {
    if list != [] {
      NamesConcat(list[..1], list[1..]);
      assert list[..1] + list[1..] == list;
    }
  }

  class Item {
    const name: string
    var skip: bool

    constructor (name: string, skip: bool)
      ensures this.name == name && this.skip == skip
    {
      this.name, this.skip := name, skip;
    }

    /** Skipped unless it is listed. */
    method SkipUnlessListed(list: Ranking)
      modifies this
      ensures skip <==> name !in NameSet(list)
    {
      skip := true;
      for i := 0 to |list|
        invariant skip <==> name !in NameSet(list[..i])
        invariant skip
      {
        assert list[..i + 1][..i] == list[..i];
        if list[i].0 == name {
          skip := false;
          NamesConcat(list[..i + 1], list[i + 1..]);
          assert list[..i + 1] + list[i + 1..] == list;
          return;
        }
      }
      assert list[..|list|] == list;
    }
  }

  predicate DistinctTexts(texts: seq<string>) {
    forall i, j :: 0 <= i < j < |texts| ==> texts[i] != texts[j]
  }

  ghost function TextSet(texts: seq<string>): set<string> {
    set t | t in texts
  }

  lemma {:induction false} AsManyTexts(texts: seq<string>)
    requires DistinctTexts(texts)
    ensures |TextSet(texts)| == |texts|
  {
    if texts != [] {
      var front, last := texts[..|texts| - 1], texts[|texts| - 1];
      AsManyTexts(front);
      assert last !in TextSet(front);
      assert TextSet(texts) == TextSet(front) + {last} by {
        assert texts == front + [last];
      }
    }
  }

  function Names(objects: seq<Item>): (names: seq<string>)
    ensures |names| == |objects| && forall i :: 0 <= i < |objects| ==> names[i] == objects[i].name
  {
    seq(|objects|, i requires 0 <= i < |objects| => objects[i].name)
  }

  ghost function SkippedNames(objects: seq<Item>): set<string>
    reads objects
  {
    set i | 0 <= i < |objects| && objects[i].skip :: objects[i].name
  }

  /** How many parts a text of `n` items joined with commas has: the empty text is one part. */
  function Parts(n: nat): nat {
    if n == 0 then 1 else n
  }

  /** That is what splitting them at the commas gives. */
  lemma PartsOfText(parameters: seq<string>)
    requires Without(parameters, ',')
    ensures |Split(if parameters == [] then "" else Joined(parameters, ','), ',')| == Parts(|parameters|)
  {
    if parameters != [] {
      SplitJoined(parameters, ',');
    }
  }

  // ---- rankings ----

  /** What an engine answers after the cycle of a number over the given knobs. None is a blank text. */
  type Engine = (nat, seq<string>) -> Option<Ranking>

  /** Rankings are sorted and name tuned knobs, each at most once. */
  ghost predicate RanksTuned(rank: Engine) {
    forall j, knobs :: DistinctTexts(knobs) && rank(j, knobs).Some? ==>
      var list := rank(j, knobs).value; Descending(list) && DistinctNames(list) && NameSet(list) <= TextSet(knobs)
  }

  /** Rankings name every tuned knob, and are blank only without one. */
  ghost predicate RanksAll(rank: Engine) {
    forall j, knobs :: DistinctTexts(knobs) ==>
      match rank(j, knobs) case None => knobs == [] case Some(list) => knobs != [] && NameSet(list) == TextSet(knobs)
  }

  /** One cycle: the knobs it tuned, and the two parts of its ranking. */
  datatype Cycle = Cycle(knobs: seq<string>, selected: Ranking, remaining: Ranking)

  /** The slice of a ranking ends before the selection. */
  predicate TooFew(ranking: Option<Ranking>, steady: bool, count: nat) {
    ranking.Some? && !steady && count > |ranking.value|
  }

  ghost function Selected(run: seq<Cycle>): Ranking {
    if run == [] then [] else Selected(run[..|run| - 1]) + run[|run| - 1].selected
  }

  /** A ranking is its two parts, and as many as wanted are in the first. */
  ghost predicate Splits(selected: Ranking, remaining: Ranking, ranking: Option<Ranking>, steady: bool, count: nat) {
    && selected + remaining == (if ranking.Some? then ranking.value else [])
    && |selected| == (if ranking.None? || steady then 0 else count)
  }

  ghost predicate Tunes(knobs: seq<string>, open: set<string>) {
    DistinctTexts(knobs) && TextSet(knobs) == open
  }

  /** No parameter is selected by two cycles. */
  ghost predicate NoneTwice(run: seq<Cycle>) {
    forall i, j :: 0 <= i < j < |run| ==> NameSet(run[i].selected) !! NameSet(run[j].selected)
  }

  lemma {:induction false} SelectedContains(run: seq<Cycle>, i: nat)
    requires i < |run|
    ensures NameSet(run[i].selected) <= NameSet(Selected(run))
  {
    var front, last := run[..|run| - 1], run[|run| - 1];
    NamesConcat(Selected(front), last.selected);
    if i < |front| {
      SelectedContains(front, i);
    }
  }

  /** What a selection is given: the engine, which cycles hardly fluctuate, how many parameters to
  select in each, and the number of all objects. */
  datatype Setting = Setting(rank: Engine, steady: nat -> bool, count: nat, objects: nat)

  /** Whether another cycle follows the last one, after which `chosen` parameters are selected. */
  predicate GoesOn(p: Setting, chosen: nat, last: Cycle) {
    p.objects - chosen >= p.count && Parts(|last.knobs|) != Parts(|last.remaining|)
  }

  /** A run of cycles: each follows from those before it, tunes exactly what they left open, and
  splits its ranking. */
  ghost predicate IsRun(p: Setting, open: set<string>, run: seq<Cycle>) {
    run == [] ||
    (var front, last := run[..|run| - 1], run[|run| - 1];
     IsRun(p, open, front) && Unfinished(p, front) && Follows(p, |front|, open - NameSet(Selected(front)), last))
  }

  ghost predicate Follows(p: Setting, j: nat, open: set<string>, cycle: Cycle) {
    Tunes(cycle.knobs, open) && Splits(cycle.selected, cycle.remaining, p.rank(j, cycle.knobs), p.steady(j), p.count)
  }

  /** The last cycle lets another one start. */
  ghost predicate Unfinished(p: Setting, run: seq<Cycle>) {
    run == [] || GoesOn(p, |Selected(run)|, run[|run| - 1])
  }

  /** The cycle after a run starts, and its ranking is too short. */
  ghost predicate FailsAt(p: Setting, open: set<string>, run: seq<Cycle>) {
    Unfinished(p, run) &&
    exists knobs ::
      Tunes(knobs, open - NameSet(Selected(run))) && TooFew(p.rank(|run|, knobs), p.steady(|run|), p.count)
  }

  /** Without repetition in all that is selected, no two cycles select the same. */
  lemma {:induction false} NoRepetition(run: seq<Cycle>)
    requires DistinctNames(Selected(run))
    ensures NoneTwice(run)
  {
    if run != [] {
      var front, last := run[..|run| - 1], run[|run| - 1];
      DistinctConcat(Selected(front), last.selected);
      NoRepetition(front);
      forall i | 0 <= i < |front| ensures NameSet(run[i].selected) !! NameSet(last.selected) {
        SelectedContains(front, i);
      }
    }
  }

  /** A run that selects anything selects enough for the filtering after the final tuning. */
  lemma {:induction false} SelectedEnough(p: Setting, open: set<string>, run: seq<Cycle>)
    requires IsRun(p, open, run)
    ensures Selected(run) == [] || |Selected(run)| >= p.count
  {
    if run != [] {
      SelectedEnough(p, open, run[..|run| - 1]);
    }
  }

  // ---- when a selection fails ----

  /** Whether one of the cycles left asks for more parameters than are ranked, with `open` knobs to
  tune, `skipped` skipped from the start, and `count` to select; `j` numbers the cycle. */
  ghost predicate SliceFails(left: nat, open: nat, skipped: nat, count: nat, steady: nat -> bool, j: nat)
    decreases left
  {
    && left > 0 && open > 0 && !steady(j)
    && (count > open
        || (open - count + skipped >= count && Parts(open) != Parts(open - count)
            && SliceFails(left - 1, open - count, skipped, count, steady, j + 1)))
  }

  ghost predicate NeverSteady(steady: nat -> bool, from: nat, to: nat) {
    forall i :: from <= i <= to ==> !steady(i)
  }

  /** The induction for `quotient` full selections and a remainder. */
  lemma {:induction false} FailsAtRemainder(left: nat, quotient: nat, remainder: nat, skipped: nat, count: nat,
                                            steady: nat -> bool, j: nat)
    requires remainder < count
    ensures SliceFails(left, Times(count, quotient) + remainder, skipped, count, steady, j) <==>
      remainder > 0 && quotient < left && (quotient == 0 || remainder + skipped >= count)
      && NeverSteady(steady, j, j + quotient)
    decreases left
  {
    if quotient > 0 {
      assert Times(count, quotient) == Times(count, quotient - 1) + count;
      TimesIsProduct(count, quotient - 1);
      if left > 0 {
        FailsAtRemainder(left - 1, quotient - 1, remainder, skipped, count, steady, j + 1);
        assert NeverSteady(steady, j, j + quotient) <==>
          !steady(j) && NeverSteady(steady, j + 1, j + 1 + (quotient - 1));
      }
    }
  }

  lemma Divided(n: nat, m: nat) returns (quotient: nat, remainder: nat)
    requires m > 0
    ensures quotient == n / m && remainder == n % m < m && n == Times(m, quotient) + remainder
    ensures n < m <==> quotient == 0
  {
    quotient, remainder := n / m, n % m;
    TimesIsProduct(m, quotient);
  }

  /** It fails exactly if the open knobs do not divide into selections, the cycles reach the
  remainder, the guard lets the cycle over the remainder start, and no cycle until then was steady. */
  lemma SliceFailsIff(left: nat, open: nat, skipped: nat, count: nat, steady: nat -> bool, j: nat)
    ensures SliceFails(left, open, skipped, count, steady, j) <==>
      && count > 0 && open % count > 0 && open / count < left
      && (open < count || open % count + skipped >= count)
      && NeverSteady(steady, j, j + open / count)
  {
    if count > 0 {
      var quotient, remainder := Divided(open, count);
      FailsAtRemainder(left, quotient, remainder, skipped, count, steady, j);
    }
  }

  /** The selection is safe, however the results fluctuate, exactly if the knobs divide into
  selections, the cycles do not reach the remainder, or the guard keeps them from it. */
  lemma SelectionSafeIff(cycles: nat, open: nat, skipped: nat, count: nat)
    ensures (forall steady: nat -> bool :: !SliceFails(cycles, open, skipped, count, steady, 0)) <==>
      count == 0 || open % count == 0 || cycles <= open / count || (count <= open && open % count + skipped < count)
  {
    var restless: nat -> bool := (j: nat) => false;
    SliceFailsIff(cycles, open, skipped, count, restless, 0);
    forall steady: nat -> bool | SliceFails(cycles, open, skipped, count, steady, 0)
      ensures SliceFails(cycles, open, skipped, count, restless, 0)
    {
      SliceFailsIff(cycles, open, skipped, count, steady, 0);
    }
  }

  /** Whether the last cycle of a selection that does not fail is not steady. */
  ghost predicate EndsRestless(left: nat, open: nat, skipped: nat, count: nat, steady: nat -> bool, j: nat)
    requires left > 0
    decreases left
  {
    && !steady(j)
    && (left > 1 && 0 < count <= open && open - count + skipped >= count && Parts(open) != Parts(open - count) ==>
          EndsRestless(left - 1, open - count, skipped, count, steady, j + 1))
  }

  function Least(a: nat, b: nat): nat {
    if a < b then a else b
  }

  /** How many cycles run if none is steady: the full selections, and one more that the guard lets
  start over the remainder. */
  function CyclesRun(left: nat, quotient: nat, remainder: nat, skipped: nat, count: nat): nat {
    Least(left, quotient + (if count >= 2 && remainder + skipped >= count then 1 else 0))
  }

  lemma {:induction false} EndsRestlessIff(left: nat, quotient: nat, remainder: nat, skipped: nat, count: nat,
                                           steady: nat -> bool, j: nat)
    requires left > 0 && quotient > 0 && remainder < count
    ensures EndsRestless(left, Times(count, quotient) + remainder, skipped, count, steady, j) <==>
      NeverSteady(steady, j, j + CyclesRun(left, quotient, remainder, skipped, count) - 1)
    decreases left
  {
    var n := CyclesRun(left, quotient, remainder, skipped, count);
    assert Times(count, quotient) == Times(count, quotient - 1) + count;
    assert NeverSteady(steady, j, j + n - 1) <==> !steady(j) && NeverSteady(steady, j + 1, j + n - 1);
    if left > 1 {
      if quotient > 1 {
        assert Times(count, quotient - 1) == Times(count, quotient - 2) + count;
        EndsRestlessIff(left - 1, quotient - 1, remainder, skipped, count, steady, j + 1);
      } else {
        assert Times(count, 0) == 0;
      }
    }
  }

  // ---- the whole tuning ----

  /** The selection fails, or, without any cycle, the filtering after the final tuning does. */
  ghost predicate TuningFails(cycles: nat, open: nat, skipped: nat, count: nat, steady: nat -> bool) {
    SliceFails(cycles, open, skipped, count, steady, 0) || (cycles == 0 && 0 < open < count)
  }

  /** No filtering fails, however the results fluctuate, exactly if the knobs divide into selections,
  or else the first selection fits and either the cycles do not reach the remainder or the guard keeps
  them from it. */
  lemma TuningSafeIff(cycles: nat, open: nat, skipped: nat, count: nat)
    ensures (forall steady: nat -> bool :: !TuningFails(cycles, open, skipped, count, steady)) <==>
      count == 0 || open % count == 0
      || (count <= open && (cycles <= open / count || open % count + skipped < count))
  {
    var restless: nat -> bool := (j: nat) => false;
    SliceFailsIff(cycles, open, skipped, count, restless, 0);
    forall steady: nat -> bool | TuningFails(cycles, open, skipped, count, steady)
      ensures TuningFails(cycles, open, skipped, count, restless)
    {
      SliceFailsIff(cycles, open, skipped, count, steady, 0);
    }
    if count > 0 {
      var quotient, remainder := Divided(open, count);
      assert quotient == 0 ==> remainder == open;
    }
    assert NeverSteady(restless, 0, if count > 0 then open / count else 0);
    if TuningFails(cycles, open, skipped, count, restless) {
      assert exists steady :: TuningFails(cycles, open, skipped, count, steady);
    }
  }

  /** The filtering after the final tuning selects parameters that were selected before. */
  ghost predicate TuningRepeats(cycles: nat, open: nat, skipped: nat, count: nat, steady: nat -> bool) {
    cycles > 0 && 0 < count <= open && EndsRestless(cycles, open, skipped, count, steady, 0)
  }

  /** That is so exactly if a first cycle has something to select and no cycle that runs is steady. */
  lemma TuningRepeatsIff(cycles: nat, open: nat, skipped: nat, count: nat, steady: nat -> bool)
    ensures TuningRepeats(cycles, open, skipped, count, steady) <==>
      cycles > 0 && 0 < count <= open
      && NeverSteady(steady, 0, CyclesRun(cycles, open / count, open % count, skipped, count) - 1)
  {
    if cycles > 0 && 0 < count <= open {
      var quotient, remainder := Divided(open, count);
      EndsRestlessIff(cycles, quotient, remainder, skipped, count, steady, 0);
    }
  }

  /** How many cycles are left after one of a selection. */
  function LeftAfter(p: Setting, left: nat, chosen: nat, cycle: Cycle): nat
    requires left > 0
  {
    if GoesOn(p, chosen, cycle) then left - 1 else 0
  }

  /** Rankings are as long as there are knobs, and blank only without one. */
  ghost predicate RankedAsMany(rank: Engine) {
    forall j, knobs :: DistinctTexts(knobs) ==>
      match rank(j, knobs) case None => |knobs| == 0 case Some(list) => |list| == |knobs| > 0
  }

  lemma RankedAll(rank: Engine)
    requires RanksTuned(rank) && RanksAll(rank)
    ensures RankedAsMany(rank)
  {
    forall j, knobs | DistinctTexts(knobs)
      ensures match rank(j, knobs) case None => |knobs| == 0 case Some(list) => |list| == |knobs| > 0
    {
      AsManyTexts(knobs);
      if rank(j, knobs).Some? {
        assert DistinctNames(rank(j, knobs).value);
      }
    }
  }

  /** The sizes of a run: every cycle tunes as many knobs as are neither skipped nor selected. */
  ghost predicate Sized(p: Setting, skipped: nat, run: seq<Cycle>) {
    run == [] ||
    (var front, last := run[..|run| - 1], run[|run| - 1];
     && Sized(p, skipped, front) && Unfinished(p, front) && DistinctTexts(last.knobs)
     && p.objects == |last.knobs| + skipped + |Selected(front)|
     && Splits(last.selected, last.remaining, p.rank(|front|, last.knobs), p.steady(|front|), p.count))
  }

  /** How many of the cycles are left after a run. */
  ghost function LeftOf(p: Setting, cycles: nat, run: seq<Cycle>): nat
    requires |run| <= cycles
  {
    if Unfinished(p, run) then cycles - |run| else 0
  }

  /** A cycle that succeeds leaves the question to those after it. */
  lemma FailsLater(p: Setting, left: nat, skipped: nat, chosen: nat, cycle: Cycle, j: nat)
    requires left > 0 && RankedAsMany(p.rank) && DistinctTexts(cycle.knobs)
    requires p.objects == |cycle.knobs| + skipped + chosen
    requires Splits(cycle.selected, cycle.remaining, p.rank(j, cycle.knobs), p.steady(j), p.count)
    ensures |cycle.selected| <= |cycle.knobs|
    ensures SliceFails(left, |cycle.knobs|, skipped, p.count, p.steady, j) ==
      SliceFails(LeftAfter(p, left, chosen + |cycle.selected|, cycle), |cycle.knobs| - |cycle.selected|,
                 skipped, p.count, p.steady, j + 1)
  {
    assert |cycle.selected + cycle.remaining| == |cycle.knobs|;
  }

  /** A run leaves the question whether the selection fails to what follows it. */
  lemma {:induction false} RunDecides(p: Setting, cycles: nat, skipped: nat, run: seq<Cycle>, open: nat, now: nat)
    requires RankedAsMany(p.rank) && Sized(p, skipped, run) && |run| <= cycles
    requires p.objects == open + skipped == now + skipped + |Selected(run)|
    ensures SliceFails(cycles, open, skipped, p.count, p.steady, 0) ==
      SliceFails(LeftOf(p, cycles, run), now, skipped, p.count, p.steady, |run|)
  {
    if run != [] {
      var front, last := run[..|run| - 1], run[|run| - 1];
      RunDecides(p, cycles, skipped, front, open, |last.knobs|);
      FailsLater(p, cycles - |front|, skipped, |Selected(front)|, last, |front|);
      assert now == |last.knobs| - |last.selected|;
      assert LeftOf(p, cycles, run) == LeftAfter(p, cycles - |front|, |Selected(run)|, last);
    }
  }

  /** A run that stops at a cycle whose ranking is too short is one that fails, and a run that
  finishes is one that does not. */
  lemma FailedOrNot(p: Setting, cycles: nat, skipped: nat, run: seq<Cycle>, open: nat,
                    knobs: Option<seq<string>>, now: nat)
    requires RanksTuned(p.rank) && Sized(p, skipped, run) && |run| <= cycles
    requires p.objects == open + skipped == now + skipped + |Selected(run)|
    requires match knobs
      case None => |run| == cycles || !Unfinished(p, run)
      case Some(last) =>
        && |run| < cycles && Unfinished(p, run) && DistinctTexts(last) && now == |last|
        && TooFew(p.rank(|run|, last), p.steady(|run|), p.count)
    ensures RanksAll(p.rank) ==> (SliceFails(cycles, open, skipped, p.count, p.steady, 0) <==> knobs.Some?)
  {
    if RanksAll(p.rank) {
      RankedAll(p.rank);
      RunDecides(p, cycles, skipped, run, open, now);
    }
  }

  lemma EndsLater(p: Setting, left: nat, skipped: nat, chosen: nat, cycle: Cycle, j: nat)
    requires left > 0 && RankedAsMany(p.rank) && DistinctTexts(cycle.knobs)
    requires p.objects == |cycle.knobs| + skipped + chosen
    requires Splits(cycle.selected, cycle.remaining, p.rank(j, cycle.knobs), p.steady(j), p.count)
    ensures |cycle.selected| <= |cycle.knobs|
    ensures var follow := LeftAfter(p, left, chosen + |cycle.selected|, cycle);
      EndsRestless(left, |cycle.knobs|, skipped, p.count, p.steady, j) ==
        if follow > 0 then EndsRestless(follow, |cycle.knobs| - |cycle.selected|, skipped, p.count, p.steady, j + 1)
        else !p.steady(j)
  {
    assert |cycle.selected + cycle.remaining| == |cycle.knobs|;
  }

  /** Whether a run ends in a restless cycle is a matter of its sizes. */
  lemma {:induction false} RunEnds(p: Setting, cycles: nat, skipped: nat, run: seq<Cycle>, open: nat, now: nat)
    requires RankedAsMany(p.rank) && Sized(p, skipped, run) && 0 < cycles && |run| <= cycles
    requires p.objects == open + skipped == now + skipped + |Selected(run)|
    ensures var left := LeftOf(p, cycles, run);
      && (run == [] ==> left > 0)
      && EndsRestless(cycles, open, skipped, p.count, p.steady, 0) ==
           if left > 0 then EndsRestless(left, now, skipped, p.count, p.steady, |run|) else !p.steady(|run| - 1)
  {
    if run != [] {
      var front, last := run[..|run| - 1], run[|run| - 1];
      RunEnds(p, cycles, skipped, front, open, |last.knobs|);
      EndsLater(p, cycles - |front|, skipped, |Selected(front)|, last, |front|);
      assert now == |last.knobs| - |last.selected|;
      assert LeftOf(p, cycles, run) == LeftAfter(p, cycles - |front|, |Selected(run)|, last);
    }
  }

  /** Whether anything is selected is decided by the first cycle. */
  lemma {:induction false} FirstDecides(p: Setting, skipped: nat, run: seq<Cycle>)
    requires RankedAsMany(p.rank) && Sized(p, skipped, run) && run != []
    ensures Selected(run) == [] <==> p.steady(0) || p.count == 0 || p.objects == skipped
  {
    var front, last := run[..|run| - 1], run[|run| - 1];
    assert |last.selected + last.remaining| == |last.knobs|;
    if front != [] {
      FirstDecides(p, skipped, front);
      var before := front[|front| - 1];
      assert Selected(front) == Selected(front[..|front| - 1]) + before.selected;
      assert before.selected == [] ==> before.remaining == before.selected + before.remaining;
      assert |before.selected + before.remaining| == |before.knobs|;
    }
  }

  /** What the filtering after the final tuning finds, by the sizes of the selection. `knobs` are tuned
  in the end and `steady` is what the last cycle was. */
  lemma FinalVerdict(p: Setting, cycles: nat, skipped: nat, run: seq<Cycle>, open: nat,
                     knobs: seq<string>, steady: bool)
    requires RankedAsMany(p.rank) && Sized(p, skipped, run) && |run| <= cycles && DistinctTexts(knobs)
    requires |run| == cycles || !Unfinished(p, run)
    requires p.objects == open + skipped && open >= |Selected(run)|
    requires |knobs| == (if Selected(run) == [] then open else |Selected(run)|)
    requires Selected(run) == [] || |Selected(run)| >= p.count
    requires !SliceFails(cycles, open, skipped, p.count, p.steady, 0)
    requires steady == (run != [] && p.steady(|run| - 1))
    ensures var ranking := p.rank(|run|, knobs);
      && (TooFew(ranking, steady, p.count) <==> TuningFails(cycles, open, skipped, p.count, p.steady))
      && (TuningRepeats(cycles, open, skipped, p.count, p.steady) <==>
            Selected(run) != [] && ranking.Some? && !steady && p.count > 0)
  {
    if run != [] {
      FirstDecides(p, skipped, run);
      RunEnds(p, cycles, skipped, run, open, open - |Selected(run)|);
      assert LeftOf(p, cycles, run) == 0;
    }
  }

  class Optimizer {
    const objects: seq<Item>
    const count: nat
    ghost const skippedFirst: set<string>
    var tuningParams: Ranking

    constructor (objects: seq<Item>, count: nat)
      requires DistinctTexts(Names(objects))
      ensures this.objects == objects && this.count == count && tuningParams == []
      ensures skippedFirst == SkippedNames(objects) && Selecting()
    {
      this.objects, this.count, tuningParams := objects, count, [];
      skippedFirst := SkippedNames(objects);
      new;
      assert forall i :: 0 <= i < |objects| && !objects[i].skip ==> objects[i].name !in skippedFirst;
    }

    /** The names not skipped at first. */
    ghost function Unskipped(): set<string> {
      TextSet(Names(objects)) - skippedFirst
    }

    /** The names neither skipped at first nor selected. */
    ghost function Open(): set<string>
      reads this
    {
      Unskipped() - NameSet(tuningParams)
    }

    /** During the selection: exactly the open objects are tuned, and no parameter is selected twice. */
    ghost predicate Selecting()
      reads this, objects
    {
      && DistinctTexts(Names(objects)) && skippedFirst <= TextSet(Names(objects))
      && DistinctNames(tuningParams) && NameSet(tuningParams) <= Unskipped()
      && forall i :: 0 <= i < |objects| ==> (objects[i].skip <==> objects[i].name !in Open())
    }

    /** How many objects are open. */
    lemma OpenSize()
      requires Selecting()
      ensures |Unskipped()| == |objects| - |skippedFirst| && |Open()| == |Unskipped()| - |tuningParams|
    {
      AsManyTexts(Names(objects));
    }

    /** The knobs of a new task: the objects that are not skipped. */
    method Knobs() returns (knobs: seq<string>)
      requires DistinctTexts(Names(objects))
      ensures DistinctTexts(knobs)
      ensures forall n :: n in knobs <==> exists i :: 0 <= i < |objects| && !objects[i].skip && objects[i].name == n
    {
      knobs := [];
      for k := 0 to |objects|
        invariant DistinctTexts(knobs)
        invariant forall n :: n in knobs <==> exists i :: 0 <= i < k && !objects[i].skip && objects[i].name == n
      {
        if !objects[k].skip {
          assert objects[k].name !in knobs;
          knobs := knobs + [objects[k].name];
        }
      }
    }

    /** Objects just selected are skipped from now on. */
    method SkipSelected(selected: Ranking)
      requires DistinctTexts(Names(objects))
      modifies objects
      ensures forall i :: 0 <= i < |objects| ==>
        (objects[i].skip <==> old(objects[i].skip) || objects[i].name in NameSet(selected))
    {
      for k := 0 to |objects|
        invariant forall i :: k <= i < |objects| ==> objects[i].skip == old(objects[i].skip)
        invariant forall i :: 0 <= i < k ==>
          (objects[i].skip <==> old(objects[i].skip) || objects[i].name in NameSet(selected))
      {
        if objects[k].name in NameSet(selected) {
          objects[k].skip := true;
        }
      }
    }

    method AddParams(selected: Ranking)
      modifies this`tuningParams
      ensures tuningParams == old(tuningParams) + selected
    {
      for i := 0 to |selected|
        invariant tuningParams == old(tuningParams) + selected[..i]
      {
        tuningParams := tuningParams + [selected[i]];
      }
      assert selected[..|selected|] == selected;
    }

    /** The first parameters of the sorted ranking are selected, unless the results hardly fluctuate,
    and the others remain. More than are ranked cannot be selected: the slice ends. A blank ranking
    selects nothing. No parameter is then selected twice exactly if none was before, and the new ones
    differ from each other and from those. */
    method FilterParams(sorted: Option<Ranking>, steady: bool)
      returns (failed: bool, selected: Ranking, remaining: Ranking)
      requires DistinctTexts(Names(objects)) && (sorted.Some? ==> Descending(sorted.value))
      modifies this`tuningParams, objects
      ensures failed <==> sorted.Some? && !steady && count > |sorted.value|
      ensures !failed ==> Splits(selected, remaining, sorted, steady, count)
      ensures !failed ==> forall i, j :: 0 <= i < |selected| && 0 <= j < |remaining| ==> selected[i].1 >= remaining[j].1
      ensures !failed ==> tuningParams == old(tuningParams) + selected
      ensures !failed ==> forall i :: 0 <= i < |objects| ==>
        (objects[i].skip <==> old(objects[i].skip) || objects[i].name in NameSet(selected))
      ensures !failed ==> (DistinctNames(tuningParams) <==>
        DistinctNames(old(tuningParams)) && DistinctNames(selected) && NameSet(old(tuningParams)) !! NameSet(selected))
    {
      failed, selected, remaining := false, [], [];
      DistinctConcat(tuningParams, []);
      if sorted.None? {
        return;
      }
      var skipIndex := if steady then 0 else count;
      if skipIndex > |sorted.value| {
        failed := true;
        return;
      }
      selected, remaining := sorted.value[..skipIndex], sorted.value[skipIndex..];
      assert selected + remaining == sorted.value;
      DistinctConcat(tuningParams, selected);
      AddParams(selected);
      SkipSelected(selected);
    }

    /** One cycle of the selection, up to the choice whether another follows. */
    method SelectOnce(rank: Engine, steady: bool, j: nat) returns (failed: bool, cycle: Cycle)
      requires Selecting() && RanksTuned(rank)
      modifies this`tuningParams, objects
      ensures Tunes(cycle.knobs, old(Open()))
      ensures |objects| == |cycle.knobs| + |skippedFirst| + |old(tuningParams)|
      ensures failed <==> TooFew(rank(j, cycle.knobs), steady, count)
      ensures !failed ==> Selecting() && tuningParams == old(tuningParams) + cycle.selected
      ensures !failed ==> Splits(cycle.selected, cycle.remaining, rank(j, cycle.knobs), steady, count)
      ensures !failed ==> NameSet(cycle.selected) <= old(Open()) && Open() == old(Open()) - NameSet(cycle.selected)
    {
      var knobs := Knobs();
      ghost var before, open := tuningParams, Open();
      KnobsAre(knobs, open);
      AsManyTexts(knobs);
      OpenSize();
      var ranking := rank(j, knobs);
      var selected, remaining;
      failed, selected, remaining := FilterParams(ranking, steady);
      cycle := Cycle(knobs, selected, remaining);
      if !failed {
        DistinctConcat(selected, remaining);
        NamesConcat(selected, remaining);
        StillSelecting(before, open, selected);
      }
    }

    lemma KnobsAre(knobs: seq<string>, tuned: set<string>)
      requires tuned <= TextSet(Names(objects))
      requires forall i :: 0 <= i < |objects| ==> (objects[i].skip <==> objects[i].name !in tuned)
      requires forall n :: n in knobs <==> exists i :: 0 <= i < |objects| && !objects[i].skip && objects[i].name == n
      ensures TextSet(knobs) == tuned
    {
      forall n | n in tuned ensures n in knobs {
        var i :| 0 <= i < |objects| && Names(objects)[i] == n;
        assert !objects[i].skip;
      }
    }

    lemma StillSelecting(before: Ranking, open: set<string>, selected: Ranking)
      requires DistinctTexts(Names(objects)) && skippedFirst <= TextSet(Names(objects))
      requires open == Unskipped() - NameSet(before) && NameSet(selected) <= open
      requires tuningParams == before + selected && DistinctNames(tuningParams)
      requires NameSet(before) <= Unskipped()
      requires forall i :: 0 <= i < |objects| ==>
        (objects[i].skip <==> objects[i].name !in open || objects[i].name in NameSet(selected))
      ensures Selecting() && Open() == open - NameSet(selected)
    {
      NamesConcat(before, selected);
    }

    /** Tuning after the selection: exactly the selected parameters are tuned. If none is selected the
    objects stay as they are. */
    method InitTuned()
      requires DistinctTexts(Names(objects))
      modifies objects
      ensures tuningParams != [] ==>
        forall i :: 0 <= i < |objects| ==> (objects[i].skip <==> objects[i].name !in NameSet(tuningParams))
      ensures tuningParams == [] ==> forall i :: 0 <= i < |objects| ==> objects[i].skip == old(objects[i].skip)
    {
      if |tuningParams| > 0 {
        for k := 0 to |objects|
          invariant forall i :: 0 <= i < k ==> (objects[i].skip <==> objects[i].name !in NameSet(tuningParams))
        {
          assert forall i :: 0 <= i < k ==> Names(objects)[i] != Names(objects)[k];
          objects[k].SkipUnlessListed(tuningParams);
        }
      }
    }

    /** The final tuning ends with the same filtering. Its ranking names selected parameters, if any was
    selected, so they are selected again: without repetition only if nothing was selected before, or
    the results of the last cycle hardly fluctuated, or nothing is ranked or to be selected. */
    method FinishTuning(rank: Engine, steady: bool, j: nat) returns (failed: bool, cycle: Cycle)
      requires Selecting() && RanksTuned(rank)
      modifies this`tuningParams, objects
      ensures Tunes(cycle.knobs, if old(tuningParams) == [] then old(Open()) else NameSet(old(tuningParams)))
      ensures failed <==> TooFew(rank(j, cycle.knobs), steady, count)
      ensures !failed ==> Splits(cycle.selected, cycle.remaining, rank(j, cycle.knobs), steady, count)
      ensures !failed ==> tuningParams == old(tuningParams) + cycle.selected
      ensures !failed ==> (DistinctNames(tuningParams) <==>
        old(tuningParams) == [] || steady || rank(j, cycle.knobs).None? || count == 0)
    {
      InitTuned();
      var knobs := Knobs();
      ghost var tuned := if tuningParams == [] then Open() else NameSet(tuningParams);
      KnobsAre(knobs, tuned);
      var ranking := rank(j, knobs);
      var selected, remaining;
      failed, selected, remaining := FilterParams(ranking, steady);
      cycle := Cycle(knobs, selected, remaining);
      if !failed {
        DistinctConcat(selected, remaining);
        NamesConcat(selected, remaining);
        assert selected != [] ==> selected[0].0 in NameSet(selected) by {
          FirstNamed(selected);
        }
      }
    }

    /** The whole tuning: the cycles of the selection, and then the final tuning, whose filtering still
    sees the results of the last cycle, or none. If every tuned knob is ranked, it fails exactly on the
    sizes of TuningFails, and selects parameters twice exactly on those of TuningRepeats. */
    method Tune(cycles: nat, rank: Engine, steady: nat -> bool)
      returns (failed: bool, run: seq<Cycle>, last: Option<Cycle>)
      requires Selecting() && tuningParams == [] && RanksTuned(rank)
      modifies this`tuningParams, objects
      ensures IsRun(SettingOf(rank, steady), Unskipped(), run) && NoneTwice(run) && |run| <= cycles
      ensures !failed ==> last.Some? && tuningParams == Selected(run) + last.value.selected
      ensures !failed ==> Splits(last.value.selected, last.value.remaining, rank(|run|, last.value.knobs),
                                 run != [] && steady(|run| - 1), count)
      ensures last.Some? ==>
        Tunes(last.value.knobs, if Selected(run) == [] then Unskipped() else NameSet(Selected(run)))
      ensures RanksAll(rank) ==> (failed <==> TuningFails(cycles, |Unskipped()|, |skippedFirst|, count, steady))
      ensures RanksAll(rank) && !failed ==>
        (DistinctNames(tuningParams) <==> !TuningRepeats(cycles, |Unskipped()|, |skippedFirst|, count, steady))
    {
      last := None;
      OpenSize();
      failed, run := SelectParameters(cycles, rank, steady);
      if failed {
        return;
      }
      OpenSize();
      var restful := run != [] && steady(|run| - 1);
      var cycle;
      failed, cycle := FinishTuning(rank, restful, |run|);
      last := Some(cycle);
      if RanksAll(rank) {
        var p := SettingOf(rank, steady);
        RankedAll(rank);
        AsManyTexts(cycle.knobs);
        SelectedEnough(p, Unskipped(), run);
        FinalVerdict(p, cycles, |skippedFirst|, run, |Unskipped()|, cycle.knobs, restful);
      }
    }

    function SettingOf(rank: Engine, steady: nat -> bool): Setting {
      Setting(rank, steady, count, |objects|)
    }

    /** Selecting over up to `cycles` cycles. No parameter is selected twice, each cycle ranks what is
    still open, and another cycle follows exactly as long as the guard holds and cycles are left. If
    every tuned knob is ranked, the run fails exactly on the sizes of SliceFails. */
    method SelectParameters(cycles: nat, rank: Engine, steady: nat -> bool) returns (failed: bool, run: seq<Cycle>)
      requires Selecting() && tuningParams == [] && RanksTuned(rank)
      modifies this`tuningParams, objects
      ensures IsRun(SettingOf(rank, steady), Unskipped(), run) && NoneTwice(run) && |run| <= cycles
      ensures Sized(SettingOf(rank, steady), |skippedFirst|, run)
      ensures failed ==> |run| < cycles && FailsAt(SettingOf(rank, steady), Unskipped(), run)
      ensures !failed ==> Selecting() && tuningParams == Selected(run)
      ensures !failed && |run| < cycles ==> !Unfinished(SettingOf(rank, steady), run)
      ensures RanksAll(rank) ==> (failed <==> SliceFails(cycles, |Unskipped()|, |skippedFirst|, count, steady, 0))
    {
      var p := SettingOf(rank, steady);
      failed, run := false, [];
      var left := cycles;
      while left > 0
        invariant Running(p, cycles, left, run)
      {
        OpenSize();
        var cycle;
        failed, cycle := SelectOnce(rank, steady(|run|), |run|);
        if failed {
          FailedOrNot(p, cycles, |skippedFirst|, run, |Unskipped()|, Some(cycle.knobs), |cycle.knobs|);
          NoRepetition(run);
          return;
        }
        run, left := Continue(p, cycles, left, run, cycle);
      }
      OpenSize();
      FailedOrNot(p, cycles, |skippedFirst|, run, |Unskipped()|, None, |Open()|);
      NoRepetition(run);
    }

    /** The run with one more cycle, and how many are then left. */
    method Continue(p: Setting, ghost cycles: nat, left: nat, run: seq<Cycle>, cycle: Cycle)
      returns (longer: seq<Cycle>, follow: nat)
      requires p.count == count && p.objects == |objects| && Selecting()
      requires 0 < left && |run| + left == cycles && Unfinished(p, run)
      requires tuningParams == Selected(run) + cycle.selected
      requires IsRun(p, Unskipped(), run) && Follows(p, |run|, Unskipped() - NameSet(Selected(run)), cycle)
      requires Sized(p, |skippedFirst|, run) && |objects| == |cycle.knobs| + |skippedFirst| + |Selected(run)|
      ensures Running(p, cycles, follow, longer) && follow < left
    {
      longer := run + [cycle];
      assert longer[..|run|] == run;
      follow := LeftAfter(p, left, |tuningParams|, cycle);
    }

    /** Between two cycles of a selection. */
    ghost predicate Running(p: Setting, cycles: nat, left: nat, run: seq<Cycle>)
      reads this, objects
    {
      match p
      case Setting(_, _, _, _) =>
        && Selecting() && tuningParams == Selected(run)
        && IsRun(p, Unskipped(), run) && Sized(p, |skippedFirst|, run) && |run| + left <= cycles
        && (if left > 0 then |run| + left == cycles && Unfinished(p, run) else |run| == cycles || !Unfinished(p, run))
    }
  }

  /** The knobs in their own order. */
  function InOrder(knobs: seq<string>): Ranking {
    if knobs == [] then [] else InOrder(knobs[..|knobs| - 1]) + [(knobs[|knobs| - 1], -(|knobs| as real))]
  }

  lemma {:induction false} InOrderNames(knobs: seq<string>)
    ensures NameSet(InOrder(knobs)) == TextSet(knobs) && |InOrder(knobs)| == |knobs| && Descending(InOrder(knobs))
    ensures forall i :: 0 <= i < |knobs| ==> InOrder(knobs)[i].1 >= -(|knobs| as real)
  {
    if knobs != [] {
      InOrderNames(knobs[..|knobs| - 1]);
      assert knobs == knobs[..|knobs| - 1] + [knobs[|knobs| - 1]];
    }
  }

  function OwnOrder(j: nat, knobs: seq<string>): Option<Ranking> {
    if knobs == [] then None else Some(InOrder(knobs))
  }

  lemma OwnOrderRanksAll()
    ensures RanksTuned(OwnOrder) && RanksAll(OwnOrder)
  {
    forall knobs: seq<string> | DistinctTexts(knobs)
      ensures var list := InOrder(knobs); Descending(list) && DistinctNames(list) && NameSet(list) == TextSet(knobs)
    {
      InOrderNames(knobs);
      AsManyTexts(knobs);
    }
  }

  lemma RanksEnough(open: set<string>, knobs: seq<string>)
    requires Tunes(knobs, open) && |open| >= 2
    ensures !TooFew(OwnOrder(0, knobs), false, 2)
  {
    AsManyTexts(knobs);
    InOrderNames(knobs);
  }

  method FourItems() returns (objects: seq<Item>)
    ensures fresh(objects) && Names(objects) == ["a", "b", "c", "d"] && SkippedNames(objects) == {"d"}
  {
    var a := new Item("a", false);
    var b := new Item("b", false);
    var c := new Item("c", false);
    var d := new Item("d", true);
    objects := [a, b, c, d];
    assert objects[3] == d && forall i :: 0 <= i < 3 ==> !objects[i].skip;
  }

  /** Three parameters to select from, two at a time, beside one that is skipped from the start. The
  guard counts the skipped one and lets a second cycle start, whose ranking is too short. */
  method SecondCycleFails() returns (failed: bool, run: seq<Cycle>)
    ensures failed && |run| == 1
  {
    var objects := FourItems();
    var optimizer := new Optimizer(objects, 2);
    optimizer.OpenSize();
    OwnOrderRanksAll();
    var restless: nat -> bool := (j: nat) => false;
    assert SliceFails(2, 3, 1, 2, restless, 0) by {
      assert SliceFails(1, 1, 1, 2, restless, 1);
    }
    forall knobs | Tunes(knobs, optimizer.Unskipped()) ensures !TooFew(OwnOrder(0, knobs), false, 2) {
      RanksEnough(optimizer.Unskipped(), knobs);
    }
    failed, run := optimizer.SelectParameters(2, OwnOrder, restless);
  }

  /** Five to select of three, and no selection at all: the filtering after the tuning fails, although
  no cycle does. */
  method FinalFilteringFails() returns (failed: bool)
    ensures failed && forall steady: nat -> bool :: !SliceFails(0, 3, 1, 5, steady, 0)
  {
    var objects := FourItems();
    var optimizer := new Optimizer(objects, 5);
    optimizer.OpenSize();
    OwnOrderRanksAll();
    var run, last;
    failed, run, last := optimizer.Tune(0, OwnOrder, (j: nat) => false);
  }

  /** One cycle that selects one of three parameters: the filtering after the tuning selects it again. */
  method SelectedTwice() returns (failed: bool, params: Ranking)
    ensures !failed && |params| == 2 && params[0].0 == params[1].0
  {
    var objects := FourItems();
    var optimizer := new Optimizer(objects, 1);
    optimizer.OpenSize();
    OwnOrderRanksAll();
    var restless: nat -> bool := (j: nat) => false;
    SliceFailsIff(1, 3, 1, 1, restless, 0);
    assert TuningRepeats(1, 3, 1, 1, restless);
    var run, last;
    failed, run, last := optimizer.Tune(1, OwnOrder, restless);
    params := optimizer.tuningParams;
    AtMostOneEach(Setting(OwnOrder, restless, 1, 4), optimizer.Unskipped(), run);
    TwoAlike(params);
  }

  lemma AtMostOneEach(p: Setting, open: set<string>, run: seq<Cycle>)
    requires IsRun(p, open, run) && |run| <= 1 && p.count == 1
    ensures |Selected(run)| <= 1
  {
    if run != [] {
      assert Selected(run) == Selected([]) + run[0].selected;
    }
  }

  lemma TwoAlike(params: Ranking)
    requires |params| <= 2 && !DistinctNames(params)
    ensures |params| == 2 && params[0].0 == params[1].0
  {
    if |params| > 0 {
      assert params[..1][..0] == [];
      assert NameSet(params[..1]) == {params[0].0};
    }
  }
}
