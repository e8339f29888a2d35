/** The traverse engine (analysis/optimizer/knob_traverse_manager.py). Each knob is varied alone,
over its options or to the ends of its range; knobs are then ranked by their best result and by the
spread of their results. */
module KnobTraverse {
  import opened Dicts
  import opened Sorting

  /** A knob has options, or else range bounds, of which an odd last one is ignored. */
  datatype Knob = Options(name: string, options: seq<string>) | Range(name: string, bounds: seq<real>)

  function Max(s: seq<real>): real
    requires s != []
  {
    if |s| == 1 then s[0] else Larger(Max(s[..|s| - 1]), s[|s| - 1])
  }

  function Min(s: seq<real>): real
    requires s != []
  {
    if |s| == 1 then s[0] else Smaller(Min(s[..|s| - 1]), s[|s| - 1])
  }

  function Larger(x: real, y: real): real {
    if x < y then y else x
  }

  function Smaller(x: real, y: real): real {
    if y < x then y else x
  }

  lemma {:induction false} MinMaxAreBounds(s: seq<real>)
    requires s != []
    ensures Min(s) in s && Max(s) in s
    ensures forall i :: 0 <= i < |s| ==> Min(s) <= s[i] <= Max(s)
  {
    if |s| > 1 {
      MinMaxAreBounds(s[..|s| - 1]);
      assert s == s[..|s| - 1] + [s[|s| - 1]];
    }
  }

  function Abs(x: real): real {
    if x < 0.0 then -x else x
  }

  function Without(s: seq<string>, t: string): (r: seq<string>)
    ensures t !in r
    ensures forall x :: x in r ==> x in s
  {
    if s == [] then []
    else Without(s[..|s| - 1], t) + (if s[|s| - 1] != t then [s[|s| - 1]] else [])
  }

  /** The knobs, the texts of their default values, and how numbers are written. */
  datatype Setup = Setup(knobs: seq<Knob>, defaults: seq<string>, text: real -> string) {

    ghost predicate Valid() {
      && |defaults| == |knobs|
      && forall i, j :: 0 <= i < j < |knobs| ==> knobs[i].name != knobs[j].name
    }

    /** A range knob needs a pair of bounds. */
    predicate Bounded(i: nat)
      requires i < |knobs|
    {
      match knobs[i]
      case Options(_, _) => true
      case Range(_, bounds) => |bounds| >= 2
    }

    /** The values other than the default that a knob is set to. */
    function Values(i: nat): (values: seq<string>)
      requires i < |knobs| == |defaults|
      ensures forall v :: v in values ==> v != defaults[i]
    {
      match knobs[i]
      case Options(_, options) => Without(options, defaults[i])
      case Range(_, bounds) =>
        if |bounds| < 2 then []
        else
          var pairs := bounds[..|bounds| - |bounds| % 2];
          Without([text(Max(pairs)), text(Min(pairs))], defaults[i])
    }

    /** The values to try, knob by knob. */
    function Plan(): (plan: seq<seq<string>>)
      requires |knobs| == |defaults|
      ensures |plan| == |knobs|
    {
      seq(|knobs|, i requires 0 <= i < |knobs| => Values(i))
    }
  }

  /** Values keep their order, and exactly the default is left out. */
  lemma {:induction false} WithoutConcat(a: seq<string>, b: seq<string>, t: string)
    ensures Without(a + b, t) == Without(a, t) + Without(b, t)
  {
    if b == [] {
      assert a + b == a;
    } else {
      var front, last := b[..|b| - 1], b[|b| - 1];
      WithoutConcat(a, front, t);
      assert (a + b)[..|a + b| - 1] == a + front && (a + b)[|a + b| - 1] == last;
      assert last != t ==>
        Without(a, t) + Without(front, t) + [last] == Without(a, t) + (Without(front, t) + [last]);
    }
  }

  lemma WithoutOne(x: string, t: string)
    ensures Without([x], t) == if x == t then [] else [x]
  {
    assert [x][..0] == [];
  }

  /** A knob with options is set to these; a range to the largest and the smallest of its bounds, of which
  an odd last one is ignored. Neither is set to its default. */
  lemma ValuesTried(s: Setup, i: nat) returns (high: real, low: real)
    requires i < |s.knobs| == |s.defaults| && s.Bounded(i)
    ensures match s.knobs[i]
      case Options(_, options) => s.Values(i) == Without(options, s.defaults[i])
      case Range(_, bounds) =>
        s.Values(i) == Without([s.text(high), s.text(low)], s.defaults[i])
        && var pairs := bounds[..|bounds| - |bounds| % 2];
        high in pairs && low in pairs && forall k :: 0 <= k < |pairs| ==> low <= pairs[k] <= high
  {
    high, low := 0.0, 0.0;
    if s.knobs[i].Range? {
      var bounds := s.knobs[i].bounds;
      var pairs := bounds[..|bounds| - |bounds| % 2];
      high, low := Max(pairs), Min(pairs);
      MinMaxAreBounds(pairs);
    }
  }

  // ---- the trials of a plan ----

  /** The trials of knob i, one per value. */
  function Runs(defaults: seq<string>, i: nat, values: seq<string>): (runs: seq<seq<string>>)
    requires i < |defaults|
    ensures |runs| == |values|
  {
    seq(|values|, j requires 0 <= j < |values| => defaults[i := values[j]])
  }

  /** The baseline and the trials of the first n knobs. */
  function Trials(defaults: seq<string>, plan: seq<seq<string>>, n: nat): seq<seq<string>>
    requires n <= |plan| == |defaults|
  {
    if n == 0 then [defaults] else Trials(defaults, plan, n - 1) + Runs(defaults, n - 1, plan[n - 1])
  }

  /** The knob of each trial; -1 for the baseline. */
  function Varied(plan: seq<seq<string>>, n: nat): seq<int>
    requires n <= |plan|
  {
    if n == 0 then [-1] else Varied(plan, n - 1) + seq(|plan[n - 1]|, _ => n - 1)
  }

  /** The position of the first run of a knob, or where it would be. */
  function Start(plan: seq<seq<string>>, n: nat): (start: nat)
    requires n <= |plan|
    ensures start >= 1
  {
    if n == 0 then 1 else Start(plan, n - 1) + |plan[n - 1]|
  }

  lemma {:induction false} TrialSizes(defaults: seq<string>, plan: seq<seq<string>>, n: nat)
    requires n <= |plan| == |defaults|
    ensures |Trials(defaults, plan, n)| == Start(plan, n) && Trials(defaults, plan, n)[0] == defaults
  {
    if n > 0 {
      TrialSizes(defaults, plan, n - 1);
    }
  }

  lemma {:induction false} VariedSize(plan: seq<seq<string>>, n: nat)
    requires n <= |plan|
    ensures |Varied(plan, n)| == Start(plan, n) && Varied(plan, n)[0] == -1
  {
    if n > 0 {
      VariedSize(plan, n - 1);
    }
  }

  lemma {:induction false} StartsGrow(plan: seq<seq<string>>, m: nat, n: nat)
    requires m <= n <= |plan|
    ensures Start(plan, m) <= Start(plan, n)
  {
    if m < n {
      StartsGrow(plan, m, n - 1);
    }
  }

  /** The runs of a knob stand together. */
  lemma {:induction false} RunsOfKnob(plan: seq<seq<string>>, n: nat, i: nat, p: nat)
    requires i < n <= |plan| && Start(plan, i) <= p < Start(plan, i + 1)
    ensures p < |Varied(plan, n)| == Start(plan, n) && Varied(plan, n)[p] == i
  {
    VariedSize(plan, n);
    VariedSize(plan, n - 1);
    StartsGrow(plan, i + 1, n);
    if i < n - 1 {
      StartsGrow(plan, i + 1, n - 1);
      RunsOfKnob(plan, n - 1, i, p);
    }
  }

  lemma {:induction false} TrialsOfKnob(defaults: seq<string>, plan: seq<seq<string>>, n: nat, i: nat, p: nat)
    requires i < n <= |plan| == |defaults| && Start(plan, i) <= p < Start(plan, i + 1)
    ensures p < |Trials(defaults, plan, n)| == Start(plan, n)
    ensures Trials(defaults, plan, n)[p] == defaults[i := plan[i][p - Start(plan, i)]]
  {
    TrialSizes(defaults, plan, n);
    TrialSizes(defaults, plan, n - 1);
    StartsGrow(plan, i + 1, n);
    if i < n - 1 {
      StartsGrow(plan, i + 1, n - 1);
      TrialsOfKnob(defaults, plan, n - 1, i, p);
    }
  }

  lemma {:induction false} KnobOfRun(plan: seq<seq<string>>, n: nat, p: nat) returns (i: nat)
    requires n <= |plan| && 1 <= p < Start(plan, n)
    ensures i < n && Start(plan, i) <= p < Start(plan, i + 1)
  {
    if p >= Start(plan, n - 1) {
      i := n - 1;
    } else {
      i := KnobOfRun(plan, n - 1, p);
    }
  }

  lemma {:induction false} VariedInRange(plan: seq<seq<string>>, n: nat)
    requires n <= |plan|
    ensures forall p :: 1 <= p < |Varied(plan, n)| ==> 0 <= Varied(plan, n)[p] < n
  {
    VariedSize(plan, n);
    forall p | 1 <= p < |Varied(plan, n)| ensures 0 <= Varied(plan, n)[p] < n {
      var i := KnobOfRun(plan, n, p);
      RunsOfKnob(plan, n, i, p);
    }
  }

  /** Every trial but the first, the defaults themselves, differs from these in exactly the knob recorded
  for it; the first is recorded as -1. */
  lemma TrialVariesOneKnob(s: Setup, p: nat)
    requires |s.knobs| == |s.defaults| && 1 <= p < |Trials(s.defaults, s.Plan(), |s.knobs|)|
    ensures |Varied(s.Plan(), |s.knobs|)| == |Trials(s.defaults, s.Plan(), |s.knobs|)|
    ensures Trials(s.defaults, s.Plan(), |s.knobs|)[0] == s.defaults && Varied(s.Plan(), |s.knobs|)[0] == -1
    ensures var trial, i := Trials(s.defaults, s.Plan(), |s.knobs|)[p], Varied(s.Plan(), |s.knobs|)[p];
      && 0 <= i < |s.knobs| && |trial| == |s.defaults|
      && forall k :: 0 <= k < |trial| ==> (trial[k] != s.defaults[k] <==> k == i)
  {
    var n, plan := |s.knobs|, s.Plan();
    TrialSizes(s.defaults, plan, n);
    VariedSize(plan, n);
    var i := KnobOfRun(plan, n, p);
    RunsOfKnob(plan, n, i, p);
    TrialsOfKnob(s.defaults, plan, n, i, p);
    assert s.Values(i)[p - Start(plan, i)] in s.Values(i);
  }

  // ---- what the scan of the results computes ----

  /** The best of a knob's results; the baseline counts for options only. */
  function BestOf(knob: Knob, runs: seq<real>, base: real): real
    requires runs != []
  {
    match knob
    case Options(_, _) => Min(runs + [base])
    case Range(_, _) => Min(runs)
  }

  /** How far a knob's results spread; a range with one run is compared with the baseline. */
  function SpreadOf(knob: Knob, runs: seq<real>, base: real): real
    requires runs != []
  {
    match knob
    case Options(_, _) => Abs(Max(runs + [base]) - Min(runs + [base]))
    case Range(_, _) => if |runs| == 1 then Abs(runs[0] - base) else Abs(runs[0] - runs[1])
  }

  /** A knob's best result is the least of its runs, with the baseline among them for options. */
  lemma BestIsLeast(knob: Knob, runs: seq<real>, base: real)
    requires runs != []
    ensures var results, best := if knob.Options? then runs + [base] else runs, BestOf(knob, runs, base);
      best in results && forall i :: 0 <= i < |results| ==> best <= results[i]
  {
    MinMaxAreBounds(if knob.Options? then runs + [base] else runs);
  }

  lemma ExtremesAreFarthest(s: seq<real>)
    requires s != []
    ensures Max(s) in s && Min(s) in s && forall x, y :: x in s && y in s ==> Abs(x - y) <= Abs(Max(s) - Min(s))
  {
    MinMaxAreBounds(s);
  }

  /** A knob's spread is the largest distance between two of its results; the baseline is one of them unless
  a range has two. */
  lemma SpreadIsLargest(knob: Knob, runs: seq<real>, base: real)
    requires runs != [] && (knob.Range? ==> |runs| <= 2)
    ensures var results := if knob.Range? && |runs| == 2 then runs else runs + [base];
      && (forall x, y :: x in results && y in results ==> Abs(x - y) <= SpreadOf(knob, runs, base))
      && exists x, y :: x in results && y in results && Abs(x - y) == SpreadOf(knob, runs, base)
  {
    var results := if knob.Range? && |runs| == 2 then runs else runs + [base];
    if knob.Options? {
      ExtremesAreFarthest(results);
    } else {
      assert results == [results[0], results[1]];
    }
  }

  /** A plan for the knobs: a range has at most two values to try. */
  ghost predicate Plans(knobs: seq<Knob>, plan: seq<seq<string>>) {
    |plan| == |knobs| && forall i :: 0 <= i < |knobs| && knobs[i].Range? ==> |plan[i]| <= 2
  }

  /** The results of knob n's runs. */
  function RunsAt(plan: seq<seq<string>>, performance: seq<real>, n: nat): (runs: seq<real>)
    requires n < |plan| && Start(plan, n + 1) <= |performance|
    ensures |runs| == |plan[n]|
  {
    performance[Start(plan, n)..Start(plan, n + 1)]
  }

  /** The best result and the spread of each knob among the first n that was tried. */
  function Bests(knobs: seq<Knob>, plan: seq<seq<string>>, performance: seq<real>, n: nat): seq<(string, real)>
    requires n <= |plan| == |knobs| && Start(plan, n) <= |performance|
  {
    if n == 0 then []
    else
      var before := Bests(knobs, plan, performance, n - 1);
      if plan[n - 1] == [] then before
      else before + [(knobs[n - 1].name, BestOf(knobs[n - 1], RunsAt(plan, performance, n - 1), performance[0]))]
  }

  function Spreads(knobs: seq<Knob>, plan: seq<seq<string>>, performance: seq<real>, n: nat): seq<(string, real)>
    requires n <= |plan| == |knobs| && Start(plan, n) <= |performance|
  {
    if n == 0 then []
    else
      var before := Spreads(knobs, plan, performance, n - 1);
      if plan[n - 1] == [] then before
      else before + [(knobs[n - 1].name, SpreadOf(knobs[n - 1], RunsAt(plan, performance, n - 1), performance[0]))]
  }

  /** The names of the knobs tried among the first n. */
  function Tried(knobs: seq<Knob>, plan: seq<seq<string>>, n: nat): seq<string>
    requires n <= |plan| == |knobs|
  {
    if n == 0 then []
    else if plan[n - 1] == [] then Tried(knobs, plan, n - 1)
    else Tried(knobs, plan, n - 1) + [knobs[n - 1].name]
  }

  lemma {:induction false} NamesOfScan(knobs: seq<Knob>, plan: seq<seq<string>>, performance: seq<real>, n: nat)
    requires n <= |plan| == |knobs| && Start(plan, n) <= |performance|
    ensures KeysOf(Bests(knobs, plan, performance, n)) == Tried(knobs, plan, n)
    ensures KeysOf(Spreads(knobs, plan, performance, n)) == Tried(knobs, plan, n)
  {
    if n > 0 {
      NamesOfScan(knobs, plan, performance, n - 1);
    }
  }

  ghost predicate DistinctNames(knobs: seq<Knob>) {
    forall i, j :: 0 <= i < j < |knobs| ==> knobs[i].name != knobs[j].name
  }

  ghost predicate NamesKnob(knobs: seq<Knob>, n: nat, name: string)
    requires n <= |knobs|
  {
    exists k :: 0 <= k < n && knobs[k].name == name
  }

  lemma {:induction false} TriedNames(knobs: seq<Knob>, plan: seq<seq<string>>, n: nat)
    requires n <= |plan| == |knobs| && DistinctNames(knobs)
    ensures forall i :: 0 <= i < |Tried(knobs, plan, n)| ==> NamesKnob(knobs, n, Tried(knobs, plan, n)[i])
    ensures forall i, j :: 0 <= i < j < |Tried(knobs, plan, n)| ==> Tried(knobs, plan, n)[i] != Tried(knobs, plan, n)[j]
  {
    if n > 0 {
      TriedNames(knobs, plan, n - 1);
      assert NamesKnob(knobs, n, knobs[n - 1].name);
      var before := Tried(knobs, plan, n - 1);
      forall i | 0 <= i < |before| ensures NamesKnob(knobs, n, before[i]) && before[i] != knobs[n - 1].name {
        var k :| 0 <= k < n - 1 && knobs[k].name == before[i];
      }
    }
  }

  /** A range knob named "None" whose only run is the last of all runs: the scan takes the missing
  next knob for the same knob. */
  ghost predicate EndsWithNone(knobs: seq<Knob>, plan: seq<seq<string>>) {
    |plan| == |knobs| && exists k :: 0 <= k < |knobs| && LastIsNone(knobs, plan, k)
  }

  ghost predicate LastIsNone(knobs: seq<Knob>, plan: seq<seq<string>>, k: int)
    requires 0 <= k < |knobs| == |plan|
  {
    knobs[k].Range? && knobs[k].name == "None" && |plan[k]| == 1 && Start(plan, k + 1) == Start(plan, |plan|)
  }

  /** One range knob named "None" whose default is one end of its range: its other end is the only run. */
  lemma OneKnobNamedNone()
    ensures var s := Setup([Range("None", [1.0, 2.0])], ["1"], x => if x == 1.0 then "1" else "2");
      s.Valid() && s.Bounded(0) && s.Plan() == [["2"]] && EndsWithNone(s.knobs, s.Plan())
  {
    var s := Setup([Range("None", [1.0, 2.0])], ["1"], x => if x == 1.0 then "1" else "2");
    TwoBounds();
    OtherThan("2", "1");
    assert [1.0, 2.0][..2] == [1.0, 2.0];
    assert s.Values(0) == ["2"];
    assert LastIsNone(s.knobs, s.Plan(), 0);
  }

  lemma TwoBounds()
    ensures Max([1.0, 2.0]) == 2.0 && Min([1.0, 2.0]) == 1.0
  {
    MinMaxAreBounds([1.0, 2.0]);
  }

  lemma OtherThan(other: string, value: string)
    requires other != value
    ensures Without([other, value], value) == [other]
  {
    assert [other, value][..1] == [other];
    assert Without([other], value) == [other] by {
      assert [other][..0] == [];
    }
  }

  /** Where the scan stands: the first n knobs are done, none of which made it fail. */
  ghost predicate ScannedUpTo(knobs: seq<Knob>, plan: seq<seq<string>>, performance: seq<real>, n: nat,
                              bests: seq<(string, real)>, spreads: seq<(string, real)>)
    requires n <= |plan| == |knobs| && Start(plan, n) <= |performance|
  {
    && bests == Bests(knobs, plan, performance, n) && spreads == Spreads(knobs, plan, performance, n)
    && forall i :: 0 <= i < n ==> !LastIsNone(knobs, plan, i)
  }

  /** The first knob from n on that was tried. */
  lemma {:induction false} NextTried(knobs: seq<Knob>, plan: seq<seq<string>>, performance: seq<real>, n: nat,
                                     bests: seq<(string, real)>, spreads: seq<(string, real)>)
    returns (k: nat)
    requires n <= |plan| == |knobs| && Start(plan, n) < Start(plan, |plan|) <= |performance|
    requires ScannedUpTo(knobs, plan, performance, n, bests, spreads)
    ensures n <= k < |plan| && plan[k] != [] && Start(plan, k) == Start(plan, n)
    ensures ScannedUpTo(knobs, plan, performance, k, bests, spreads)
    decreases |plan| - n
  {
    StartsGrow(plan, n + 1, |plan|);
    if plan[n] != [] {
      k := n;
    } else {
      k := NextTried(knobs, plan, performance, n + 1, bests, spreads);
    }
  }

  /** Nothing changes over knobs that were not tried. */
  lemma {:induction false} RestIsEmpty(knobs: seq<Knob>, plan: seq<seq<string>>, performance: seq<real>, n: nat,
                                       bests: seq<(string, real)>, spreads: seq<(string, real)>)
    requires n <= |plan| == |knobs| && Start(plan, n) == Start(plan, |plan|) <= |performance|
    requires ScannedUpTo(knobs, plan, performance, n, bests, spreads)
    ensures ScannedUpTo(knobs, plan, performance, |plan|, bests, spreads) && !EndsWithNone(knobs, plan)
    decreases |plan| - n
  {
    if n < |plan| {
      StartsGrow(plan, n + 1, |plan|);
      RestIsEmpty(knobs, plan, performance, n + 1, bests, spreads);
    }
  }

  // ---- the scan ----

  /** The end of the runs of the knob at `index`. */
  method EndOfRuns(knobs: seq<Knob>, varied: seq<int>, index: nat, ghost plan: seq<seq<string>>, ghost k: nat)
    returns (end: nat)
    requires DistinctNames(knobs) && |knobs| == |plan| && varied == Varied(plan, |plan|)
    requires k < |plan| && plan[k] != [] && index == Start(plan, k)
    ensures end == Start(plan, k + 1) <= |varied|
  {
    StartsGrow(plan, k + 1, |plan|);
    VariedSize(plan, |plan|);
    RunsOfKnob(plan, |plan|, k, index);
    VariedInRange(plan, |plan|);
    var name := knobs[varied[index]].name;
    end := index + 1;
    while end < |varied| && knobs[varied[end]].name == name
      invariant index < end <= Start(plan, k + 1)
    {
      var i := KnobOfRun(plan, |plan|, end);
      RunsOfKnob(plan, |plan|, i, end);
      end := end + 1;
    }
    if end < Start(plan, k + 1) {
      RunsOfKnob(plan, |plan|, k, end);
    }
  }

  lemma NewName(knobs: seq<Knob>, plan: seq<seq<string>>, performance: seq<real>, n: nat)
    requires DistinctNames(knobs) && n < |plan| == |knobs| && Start(plan, n) <= |performance|
    ensures !HasKey(Bests(knobs, plan, performance, n), knobs[n].name)
    ensures !HasKey(Spreads(knobs, plan, performance, n), knobs[n].name)
  {
    var bests, spreads := Bests(knobs, plan, performance, n), Spreads(knobs, plan, performance, n);
    NamesOfScan(knobs, plan, performance, n);
    TriedNames(knobs, plan, n);
    forall i | 0 <= i < |bests| ensures bests[i].0 != knobs[n].name {
      assert KeysOf(bests)[i] == bests[i].0 && NamesKnob(knobs, n, Tried(knobs, plan, n)[i]);
    }
    forall i | 0 <= i < |spreads| ensures spreads[i].0 != knobs[n].name {
      assert KeysOf(spreads)[i] == spreads[i].0 && NamesKnob(knobs, n, Tried(knobs, plan, n)[i]);
    }
  }

  /** The entries of knob n enter the two dictionaries. */
  lemma EnterKnob(knobs: seq<Knob>, plan: seq<seq<string>>, performance: seq<real>, n: nat)
    requires DistinctNames(knobs) && n < |plan| == |knobs| && Start(plan, n + 1) <= |performance| && plan[n] != []
    ensures Bests(knobs, plan, performance, n + 1)
         == Assigned(Bests(knobs, plan, performance, n), knobs[n].name,
                     BestOf(knobs[n], RunsAt(plan, performance, n), performance[0]))
    ensures Spreads(knobs, plan, performance, n + 1)
         == Assigned(Spreads(knobs, plan, performance, n), knobs[n].name,
                     SpreadOf(knobs[n], RunsAt(plan, performance, n), performance[0]))
  {
    NewName(knobs, plan, performance, n);
    var runs := RunsAt(plan, performance, n);
    AssignedNew(Bests(knobs, plan, performance, n), knobs[n].name, BestOf(knobs[n], runs, performance[0]));
    AssignedNew(Spreads(knobs, plan, performance, n), knobs[n].name, SpreadOf(knobs[n], runs, performance[0]));
  }

  lemma OneOrTwo(runs: seq<real>)
    requires 1 <= |runs| <= 2
    ensures |runs| == 1 ==> Min(runs) == runs[0]
    ensures |runs| == 2 ==> Min(runs) == Smaller(runs[0], runs[1])
  {
  }

  /** A range knob: its name is compared with that of the next run, or with "None" if there is
  none. */
  method ScanRange(knobs: seq<Knob>, varied: seq<int>, performance: seq<real>, index: nat,
                   bests: seq<(string, real)>, spreads: seq<(string, real)>, ghost plan: seq<seq<string>>, ghost k: nat)
    returns (failed: bool, next: nat, bests': seq<(string, real)>, spreads': seq<(string, real)>)
    requires DistinctNames(knobs) && |plan| == |knobs| && varied == Varied(plan, |plan|)
    requires k < |plan| && knobs[k].Range? && 1 <= |plan[k]| <= 2 && index == Start(plan, k)
    requires Start(plan, k + 1) <= |performance| == |varied|
    ensures failed <==> LastIsNone(knobs, plan, k)
    ensures !failed ==> next == Start(plan, k + 1)
    ensures !failed ==>
      bests' == Assigned(bests, knobs[k].name, BestOf(knobs[k], RunsAt(plan, performance, k), performance[0]))
    ensures !failed ==>
      spreads' == Assigned(spreads, knobs[k].name, SpreadOf(knobs[k], RunsAt(plan, performance, k), performance[0]))
  {
    failed, next, spreads' := false, index, spreads;
    VariedSize(plan, |plan|);
    VariedInRange(plan, |plan|);
    RunsOfKnob(plan, |plan|, k, index);
    ghost var runs := RunsAt(plan, performance, k);
    OneOrTwo(runs);
    var name := knobs[varied[index]].name;
    bests' := Assigned(bests, name, performance[index]);
    var nextName := "None";
    if index + 1 < |varied| {
      nextName := knobs[varied[index + 1]].name;
      var i := KnobOfRun(plan, |plan|, index + 1);
      RunsOfKnob(plan, |plan|, i, index + 1);
      if |plan[k]| == 2 {
        RunsOfKnob(plan, |plan|, k, index + 1);
      }
    }
    if nextName != name {
      spreads' := Assigned(spreads, name, Abs(performance[index] - performance[0]));
    } else {
      if index + 1 >= |performance| {
        failed := true;
        return;
      }
      spreads' := Assigned(spreads, name, Abs(performance[index] - performance[index + 1]));
      var smaller := Smaller(performance[index], performance[index + 1]);
      AssignedTwice(bests, name, performance[index], smaller);
      bests' := Assigned(bests', name, smaller);
      next := next + 1;
    }
    next := next + 1;
  }

  /** A knob with options: its runs and the baseline together. */
  method ScanOptions(knobs: seq<Knob>, varied: seq<int>, performance: seq<real>, index: nat,
                     bests: seq<(string, real)>, spreads: seq<(string, real)>, ghost plan: seq<seq<string>>, ghost k: nat)
    returns (next: nat, bests': seq<(string, real)>, spreads': seq<(string, real)>)
    requires DistinctNames(knobs) && |plan| == |knobs| && varied == Varied(plan, |plan|)
    requires k < |plan| && knobs[k].Options? && plan[k] != [] && index == Start(plan, k)
    requires Start(plan, k + 1) <= |performance| == |varied|
    ensures next == Start(plan, k + 1)
    ensures bests' == Assigned(bests, knobs[k].name, BestOf(knobs[k], RunsAt(plan, performance, k), performance[0]))
    ensures spreads' == Assigned(spreads, knobs[k].name, SpreadOf(knobs[k], RunsAt(plan, performance, k), performance[0]))
  {
    VariedInRange(plan, |plan|);
    RunsOfKnob(plan, |plan|, k, index);
    var name := knobs[varied[index]].name;
    next := EndOfRuns(knobs, varied, index, plan, k);
    var results := performance[index..next] + [performance[0]];
    bests' := Assigned(bests, name, Min(results));
    spreads' := Assigned(spreads, name, Abs(Max(results) - Min(results)));
  }

  /** One iteration of the scan: the knob whose runs start at `index`. */
  method ScanKnob(knobs: seq<Knob>, varied: seq<int>, performance: seq<real>, index: nat,
                  bests: seq<(string, real)>, spreads: seq<(string, real)>, ghost plan: seq<seq<string>>, ghost k: nat)
    returns (failed: bool, next: nat, bests': seq<(string, real)>, spreads': seq<(string, real)>)
    requires DistinctNames(knobs) && |plan| == |knobs| && varied == Varied(plan, |plan|)
    requires k < |plan| && plan[k] != [] && (knobs[k].Range? ==> |plan[k]| <= 2) && index == Start(plan, k)
    requires Start(plan, k + 1) <= |performance| == |varied|
    requires ScannedUpTo(knobs, plan, performance, k, bests, spreads)
    ensures failed <==> LastIsNone(knobs, plan, k)
    ensures !failed ==> next == Start(plan, k + 1) && ScannedUpTo(knobs, plan, performance, k + 1, bests', spreads')
  {
    VariedInRange(plan, |plan|);
    RunsOfKnob(plan, |plan|, k, index);
    EnterKnob(knobs, plan, performance, k);
    if knobs[varied[index]].Options? {
      failed := false;
      next, bests', spreads' := ScanOptions(knobs, varied, performance, index, bests, spreads, plan, k);
    } else {
      failed, next, bests', spreads' := ScanRange(knobs, varied, performance, index, bests, spreads, plan, k);
    }
  }

  lemma PlanSizes(s: Setup)
    requires s.Valid()
    ensures Plans(s.knobs, s.Plan())
  {
    forall i | 0 <= i < |s.knobs| && s.knobs[i].Range? ensures |s.Plan()[i]| <= 2 {
      var bounds := s.knobs[i].bounds;
      if |bounds| >= 2 {
        var pairs := bounds[..|bounds| - |bounds| % 2];
        WithoutTwo([s.text(Max(pairs)), s.text(Min(pairs))], s.defaults[i]);
      }
    }
  }

  lemma {:induction false} WithoutTwo(s: seq<string>, t: string)
    ensures |Without(s, t)| <= |s|
  {
    if s != [] {
      WithoutTwo(s[..|s| - 1], t);
    }
  }

  // ---- the ranking ----

  /** The smaller result first, and the smaller name first among equal ones. */
  predicate Ascending(x: (string, real), y: (string, real)) {
    x.1 < y.1 || (x.1 == y.1 && TextLess(x.0, y.0))
  }

  predicate Descending(x: (string, real), y: (string, real)) {
    Ascending(y, x)
  }

  /** The comparator of the final sort: by rank, then by best result. It never calls two entries
  equal, but sorting asks only whether one precedes the other. */
  function RankOrder(bests: seq<(string, real)>): ((string, int), (string, int)) -> bool {
    (x: (string, int), y: (string, int)) =>
      x.1 < y.1 || (x.1 == y.1 && Lookup(bests, x.0, 0.0) < Lookup(bests, y.0, 0.0))
  }

  lemma AscendingIsOrder()
    ensures StrictWeakOrder(Ascending)
  {
    forall x: (string, real), y: (string, real) | Ascending(x, y) ensures !Ascending(y, x) {
      if x.1 == y.1 {
        TextLessAsymmetric(x.0, y.0);
      }
    }
    forall x: (string, real), y: (string, real), z: (string, real) | Ascending(x, z)
      ensures Ascending(x, y) || Ascending(y, z)
    {
      if x.1 == z.1 {
        TextLessWeak(x.0, y.0, z.0);
      }
    }
  }

  lemma DescendingIsOrder()
    ensures StrictWeakOrder(Descending)
  {
    AscendingIsOrder();
  }

  lemma RankOrderIsOrder(bests: seq<(string, real)>)
    ensures StrictWeakOrder(RankOrder(bests))
  {
  }

  function AddRank(ranks: seq<(string, int)>, name: string, rank: int): seq<(string, int)> {
    Assigned(ranks, name, Lookup(ranks, name, 0) + rank)
  }

  /** The rank sums after the first n places of both lists. */
  function RankSums(byBest: seq<(string, real)>, bySpread: seq<(string, real)>, n: nat): seq<(string, int)>
    requires n <= |byBest| && n <= |bySpread|
  {
    if n == 0 then []
    else AddRank(AddRank(RankSums(byBest, bySpread, n - 1), byBest[n - 1].0, n), bySpread[n - 1].0, n)
  }

  /** The sum of the places, counted from one, that a name takes among the first n. */
  function Place(list: seq<(string, real)>, n: nat, name: string): int
    requires n <= |list|
  {
    if n == 0 then 0 else Place(list, n - 1, name) + (if list[n - 1].0 == name then n else 0)
  }

  function Total(ranks: seq<(string, int)>): int {
    if ranks == [] then 0 else ranks[0].1 + Total(ranks[1..])
  }

  lemma {:induction false} AssignedTotal(ranks: seq<(string, int)>, name: string, value: int)
    ensures Total(Assigned(ranks, name, value)) == Total(ranks) - Lookup(ranks, name, 0) + value
  {
    if ranks != [] && ranks[0].0 != name {
      AssignedTotal(ranks[1..], name, value);
    }
  }

  /** Together the rank sums are n times n + 1. */
  lemma {:induction false} RankSumsTotal(byBest: seq<(string, real)>, bySpread: seq<(string, real)>, n: nat)
    requires n <= |byBest| && n <= |bySpread|
    ensures Total(RankSums(byBest, bySpread, n)) == n * (n + 1)
  {
    if n > 0 {
      RankSumsTotal(byBest, bySpread, n - 1);
      var before := RankSums(byBest, bySpread, n - 1);
      RankAddsTo(before, byBest[n - 1].0, n);
      RankAddsTo(AddRank(before, byBest[n - 1].0, n), bySpread[n - 1].0, n);
      NextProduct(n);
    }
  }

  lemma RankAddsTo(ranks: seq<(string, int)>, name: string, rank: int)
    ensures Total(AddRank(ranks, name, rank)) == Total(ranks) + rank
  {
    AssignedTotal(ranks, name, Lookup(ranks, name, 0) + rank);
  }

  lemma NextProduct(n: int)
    ensures n * (n + 1) == (n - 1) * n + 2 * n
  {
  }

  /** A rank sum is the sum of the two places. */
  lemma {:induction false} RankSumIsPlaces(byBest: seq<(string, real)>, bySpread: seq<(string, real)>, n: nat, x: string)
    requires n <= |byBest| && n <= |bySpread|
    ensures Lookup(RankSums(byBest, bySpread, n), x, 0) == Place(byBest, n, x) + Place(bySpread, n, x)
  {
    if n > 0 {
      RankSumIsPlaces(byBest, bySpread, n - 1, x);
      var before := RankSums(byBest, bySpread, n - 1);
      var a, b := byBest[n - 1].0, bySpread[n - 1].0;
      var between := AddRank(before, a, n);
      AssignedLookup(before, a, Lookup(before, a, 0) + n, x, 0);
      AssignedLookup(between, b, Lookup(between, b, 0) + n, x, 0);
    }
  }

  lemma {:induction false} RankSumsKeys(byBest: seq<(string, real)>, bySpread: seq<(string, real)>, n: nat)
    requires n <= |byBest| && n <= |bySpread|
    ensures DistinctKeys(RankSums(byBest, bySpread, n))
    ensures forall x :: HasKey(RankSums(byBest, bySpread, n), x) <==> HasKey(byBest[..n], x) || HasKey(bySpread[..n], x)
  {
    if n > 0 {
      RankSumsKeys(byBest, bySpread, n - 1);
      PrefixKeys(byBest, n);
      PrefixKeys(bySpread, n);
      TwoRanksAdded(RankSums(byBest, bySpread, n - 1), byBest[n - 1].0, bySpread[n - 1].0, n);
    }
  }

  lemma TwoRanksAdded(ranks: seq<(string, int)>, a: string, b: string, n: int)
    requires DistinctKeys(ranks)
    ensures DistinctKeys(AddRank(AddRank(ranks, a, n), b, n))
    ensures forall x :: HasKey(AddRank(AddRank(ranks, a, n), b, n), x) <==> HasKey(ranks, x) || x == a || x == b
  {
    var between := AddRank(ranks, a, n);
    AssignedKeys(ranks, a, Lookup(ranks, a, 0) + n);
    AssignedKeys(between, b, Lookup(between, b, 0) + n);
  }

  lemma PrefixKeys(list: seq<(string, real)>, n: nat)
    requires 0 < n <= |list|
    ensures forall x :: HasKey(list[..n], x) <==> HasKey(list[..n - 1], x) || x == list[n - 1].0
  {
    forall x ensures HasKey(list[..n], x) <==> HasKey(list[..n - 1], x) || x == list[n - 1].0 {
      if HasKey(list[..n - 1], x) {
        var i :| 0 <= i < n - 1 && list[..n - 1][i].0 == x;
        assert list[..n][i].0 == x;
      }
      if x == list[n - 1].0 {
        assert list[..n][n - 1].0 == x;
      }
      if HasKey(list[..n], x) && x != list[n - 1].0 {
        var i :| 0 <= i < n && list[..n][i].0 == x;
        assert list[..n - 1][i].0 == x;
      }
    }
  }

  function Scored(list: seq<(string, int)>): (scored: seq<(string, nat)>)
    ensures |scored| == |list|
    ensures forall i :: 0 <= i < |list| ==> scored[i] == (list[i].0, |list| - i)
  {
    seq(|list|, i requires 0 <= i < |list| => (list[i].0, |list| - i))
  }

  /** The rank sums of a whole scan. */
  function Sums(bests: seq<(string, real)>, spreads: seq<(string, real)>): seq<(string, int)>
    requires |bests| == |spreads|
  {
    SortedIsPermutation(bests, Ascending);
    SortedIsPermutation(spreads, Descending);
    RankSums(Sorted(bests, Ascending), Sorted(spreads, Descending), |bests|)
  }

  /** The final list: the knobs by rank, scored from their number down to one. */
  function Ranking(bests: seq<(string, real)>, spreads: seq<(string, real)>): (ranking: seq<(string, nat)>)
    requires |bests| == |spreads|
  {
    Scored(Sorted(Sums(bests, spreads), RankOrder(bests)))
  }

  // ---- what the ranking promises ----

  lemma LastIsNew<V>(list: seq<(string, V)>)
    requires DistinctKeys(list) && list != []
    ensures DistinctKeys(list[..|list| - 1]) && !HasKey(list[..|list| - 1], list[|list| - 1].0)
    ensures list == list[..|list| - 1] + [list[|list| - 1]]
  {
  }

  lemma {:induction false} NameCount<V>(list: seq<(string, V)>, x: string)
    requires DistinctKeys(list)
    ensures multiset(KeysOf(list))[x] == if HasKey(list, x) then 1 else 0
  {
    if list != [] {
      var front, last := list[..|list| - 1], list[|list| - 1];
      LastIsNew(list);
      NameCount(front, x);
      AppendKey(front, last, x);
      assert KeysOf(list) == KeysOf(front) + [last.0];
    }
  }

  lemma SameKeysSameNames<V, W>(a: seq<(string, V)>, b: seq<(string, W)>)
    requires DistinctKeys(a) && DistinctKeys(b) && forall x :: HasKey(a, x) <==> HasKey(b, x)
    ensures multiset(KeysOf(a)) == multiset(KeysOf(b)) && |a| == |b|
  {
    forall x ensures multiset(KeysOf(a))[x] == multiset(KeysOf(b))[x] {
      NameCount(a, x);
      NameCount(b, x);
    }
    assert |multiset(KeysOf(a))| == |KeysOf(a)| && |multiset(KeysOf(b))| == |KeysOf(b)|;
  }

  lemma {:induction false} InsertKeys<V>(list: seq<(string, V)>, e: (string, V), before: ((string, V), (string, V)) -> bool)
    requires DistinctKeys(list) && !HasKey(list, e.0)
    ensures DistinctKeys(Insert(list, e, before))
    ensures forall x :: HasKey(Insert(list, e, before), x) <==> HasKey(list, x) || x == e.0
  {
    var r := Insert(list, e, before);
    InsertIsPermutation(list, e, before);
    forall x ensures HasKey(r, x) <==> HasKey(list, x) || x == e.0 {
      PermutationKeys(list + [e], r, x);
      AppendKey(list, e, x);
    }
    if list != [] && before(e, list[|list| - 1]) {
      var front, last := list[..|list| - 1], list[|list| - 1];
      AppendKey(front, last, e.0);
      AppendKey(front, last, last.0);
      LastIsNew(list);
      InsertKeys(front, e, before);
    } else {
      forall i | 0 <= i < |list| ensures list[i].0 != e.0 {
      }
    }
  }

  lemma AppendKey<V>(list: seq<(string, V)>, e: (string, V), x: string)
    ensures HasKey(list + [e], x) <==> HasKey(list, x) || x == e.0
  {
    var r := list + [e];
    if HasKey(list, x) {
      var i :| 0 <= i < |list| && list[i].0 == x;
      assert r[i].0 == x;
    }
    assert r[|list|] == e;
  }

  lemma PermutationKeys<V>(a: seq<(string, V)>, b: seq<(string, V)>, x: string)
    requires multiset(a) == multiset(b)
    ensures HasKey(a, x) <==> HasKey(b, x)
  {
    if HasKey(a, x) {
      var i :| 0 <= i < |a| && a[i].0 == x;
      assert a[i] in multiset(b);
    }
    if HasKey(b, x) {
      var i :| 0 <= i < |b| && b[i].0 == x;
      assert b[i] in multiset(a);
    }
  }

  lemma {:induction false} SortedKeys<V>(list: seq<(string, V)>, before: ((string, V), (string, V)) -> bool)
    requires DistinctKeys(list)
    ensures DistinctKeys(Sorted(list, before)) && |Sorted(list, before)| == |list|
    ensures forall x :: HasKey(Sorted(list, before), x) <==> HasKey(list, x)
  {
    SortedIsPermutation(list, before);
    forall x ensures HasKey(Sorted(list, before), x) <==> HasKey(list, x) {
      PermutationKeys(Sorted(list, before), list, x);
    }
    if list != [] {
      var front := list[..|list| - 1];
      SortedKeys(front, before);
      LastIsNew(list);
      InsertKeys(Sorted(front, before), list[|list| - 1], before);
    }
  }

  /** Entries of different names never tie, so they are sorted strictly. */
  lemma NamesBreakTies(list: seq<(string, real)>)
    requires DistinctKeys(list)
    ensures Strictly(Sorted(list, Ascending), Ascending) && Strictly(Sorted(list, Descending), Descending)
  {
    AscendingIsOrder();
    SortedIsInOrder(list, Ascending);
    SortedIsInOrder(list, Descending);
    SortedKeys(list, Ascending);
    SortedKeys(list, Descending);
    forall a: string, b: string | a != b ensures TextLess(a, b) || TextLess(b, a) {
      TextLessTotal(a, b);
    }
  }

  /** The places of the knobs do not depend on the order in which they were scanned. */
  lemma PlacesIgnoreOrder(list: seq<(string, real)>, other: seq<(string, real)>)
    requires DistinctKeys(list) && DistinctKeys(other) && multiset(list) == multiset(other)
    ensures Sorted(list, Ascending) == Sorted(other, Ascending)
    ensures Sorted(list, Descending) == Sorted(other, Descending)
  {
    AscendingIsOrder();
    NamesBreakTies(list);
    NamesBreakTies(other);
    SortedIsPermutation(list, Ascending);
    SortedIsPermutation(other, Ascending);
    SortedIsPermutation(list, Descending);
    SortedIsPermutation(other, Descending);
    StrictlySortedIsUnique(Sorted(list, Ascending), Sorted(other, Ascending), Ascending);
    StrictlySortedIsUnique(Sorted(list, Descending), Sorted(other, Descending), Descending);
  }

  /** The dictionaries of best results and spreads after a scan. */
  ghost predicate Scanned(bests: seq<(string, real)>, spreads: seq<(string, real)>) {
    DistinctKeys(bests) && KeysOf(bests) == KeysOf(spreads)
  }

  lemma ScannedKeys(bests: seq<(string, real)>, spreads: seq<(string, real)>)
    requires Scanned(bests, spreads)
    ensures |bests| == |spreads| && DistinctKeys(spreads)
    ensures forall x :: HasKey(bests, x) <==> HasKey(spreads, x)
  {
    forall i | 0 <= i < |bests| ensures bests[i].0 == spreads[i].0 {
      assert KeysOf(bests)[i] == KeysOf(spreads)[i];
    }
    forall x ensures HasKey(bests, x) <==> HasKey(spreads, x) {
      if HasKey(bests, x) {
        var i :| 0 <= i < |bests| && bests[i].0 == x;
        assert spreads[i].0 == x;
      }
      if HasKey(spreads, x) {
        var i :| 0 <= i < |spreads| && spreads[i].0 == x;
        assert bests[i].0 == x;
      }
    }
  }

  lemma SumsKeys(bests: seq<(string, real)>, spreads: seq<(string, real)>)
    requires Scanned(bests, spreads)
    ensures |bests| == |spreads| && DistinctKeys(Sums(bests, spreads)) && |Sums(bests, spreads)| == |bests|
    ensures forall x :: HasKey(Sums(bests, spreads), x) <==> HasKey(bests, x)
  {
    ScannedKeys(bests, spreads);
    SortedKeys(bests, Ascending);
    SortedKeys(spreads, Descending);
    var byBest, bySpread := Sorted(bests, Ascending), Sorted(spreads, Descending);
    RankSumsKeys(byBest, bySpread, |bests|);
    assert byBest[..|bests|] == byBest && bySpread[..|bests|] == bySpread;
    SameKeysSameNames(Sums(bests, spreads), bests);
  }

  /** The ranking lists each knob tried once, scored from their number down to one, and the ranks it
  is sorted by add up to n times n + 1. */
  lemma RankingIsPermutation(bests: seq<(string, real)>, spreads: seq<(string, real)>)
    requires Scanned(bests, spreads)
    ensures |bests| == |spreads| && multiset(KeysOf(Ranking(bests, spreads))) == multiset(KeysOf(bests))
    ensures |Ranking(bests, spreads)| == |bests|
    ensures forall i :: 0 <= i < |bests| ==> Ranking(bests, spreads)[i].1 == |bests| - i
    ensures Total(Sums(bests, spreads)) == |bests| * (|bests| + 1)
  {
    SumsKeys(bests, spreads);
    var sums := Sums(bests, spreads);
    SortedKeys(sums, RankOrder(bests));
    var list := Sorted(sums, RankOrder(bests));
    SameKeysSameNames(list, bests);
    assert KeysOf(Scored(list)) == KeysOf(list);
    ScannedKeys(bests, spreads);
    SortedIsPermutation(bests, Ascending);
    SortedIsPermutation(spreads, Descending);
    RankSumsTotal(Sorted(bests, Ascending), Sorted(spreads, Descending), |bests|);
  }

  lemma {:induction false} PlaceAt(list: seq<(string, real)>, n: nat, p: nat)
    requires DistinctKeys(list) && p < |list| && n <= |list|
    ensures Place(list, n, list[p].0) == if p < n then p + 1 else 0
  {
    if n > 0 {
      PlaceAt(list, n - 1, p);
    }
  }

  lemma SortedEntry<V>(list: seq<(string, V)>, before: ((string, V), (string, V)) -> bool, p: nat, missing: V)
    requires DistinctKeys(list) && p < |Sorted(list, before)|
    ensures HasKey(list, Sorted(list, before)[p].0)
    ensures Lookup(list, Sorted(list, before)[p].0, missing) == Sorted(list, before)[p].1
  {
    SortedIsPermutation(list, before);
    assert Sorted(list, before)[p] in multiset(list);
    var i :| 0 <= i < |list| && list[i] == Sorted(list, before)[p];
    LookupAt(list, i, missing);
  }

  /** Where a name stands in the sorted dictionary. */
  lemma SortedPosition<V>(list: seq<(string, V)>, before: ((string, V), (string, V)) -> bool, x: string, missing: V)
    returns (p: nat)
    requires DistinctKeys(list) && HasKey(list, x)
    ensures p < |Sorted(list, before)| && Sorted(list, before)[p] == (x, Lookup(list, x, missing))
  {
    SortedKeys(list, before);
    p :| 0 <= p < |Sorted(list, before)| && Sorted(list, before)[p].0 == x;
    SortedEntry(list, before, p, missing);
  }

  /** In a sorted dictionary the entry that comes first has the smaller place. */
  lemma SmallerPlace(list: seq<(string, real)>, before: ((string, real), (string, real)) -> bool, a: string, b: string)
    requires DistinctKeys(list) && HasKey(list, a) && HasKey(list, b) && StrictWeakOrder(before)
    requires before((a, Lookup(list, a, 0.0)), (b, Lookup(list, b, 0.0)))
    ensures |Sorted(list, before)| == |list|
    ensures Place(Sorted(list, before), |list|, a) < Place(Sorted(list, before), |list|, b)
  {
    SortedKeys(list, before);
    SortedIsInOrder(list, before);
    var p := SortedPosition(list, before, a, 0.0);
    var q := SortedPosition(list, before, b, 0.0);
    PlaceAt(Sorted(list, before), |list|, p);
    PlaceAt(Sorted(list, before), |list|, q);
  }

  /** A knob with a better best result and a wider spread than another has the smaller rank sum. */
  lemma BetterKnobSumsLess(bests: seq<(string, real)>, spreads: seq<(string, real)>, a: string, b: string)
    requires Scanned(bests, spreads) && |bests| == |spreads| && HasKey(bests, a) && HasKey(bests, b)
    requires Lookup(bests, a, 0.0) < Lookup(bests, b, 0.0) && Lookup(spreads, a, 0.0) > Lookup(spreads, b, 0.0)
    ensures Lookup(Sums(bests, spreads), a, 0) < Lookup(Sums(bests, spreads), b, 0)
  {
    ScannedKeys(bests, spreads);
    AscendingIsOrder();
    DescendingIsOrder();
    SmallerPlace(bests, Ascending, a, b);
    SmallerPlace(spreads, Descending, a, b);
    RankSumIsPlaces(Sorted(bests, Ascending), Sorted(spreads, Descending), |bests|, a);
    RankSumIsPlaces(Sorted(bests, Ascending), Sorted(spreads, Descending), |bests|, b);
  }

  /** So it is scored higher. */
  lemma BetterKnobScoresHigher(bests: seq<(string, real)>, spreads: seq<(string, real)>, i: nat, j: nat)
    requires Scanned(bests, spreads) && |bests| == |spreads|
    requires i < |Ranking(bests, spreads)| && j < |Ranking(bests, spreads)|
    requires var a, b := Ranking(bests, spreads)[i].0, Ranking(bests, spreads)[j].0;
      Lookup(bests, a, 0.0) < Lookup(bests, b, 0.0) && Lookup(spreads, a, 0.0) > Lookup(spreads, b, 0.0)
    ensures Ranking(bests, spreads)[i].1 > Ranking(bests, spreads)[j].1
  {
    var sums, order := Sums(bests, spreads), RankOrder(bests);
    var list := Sorted(sums, order);
    SumsKeys(bests, spreads);
    SortedKeys(sums, order);
    RankOrderIsOrder(bests);
    SortedIsInOrder(sums, order);
    SortedEntry(sums, order, i, 0);
    SortedEntry(sums, order, j, 0);
    BetterKnobSumsLess(bests, spreads, list[i].0, list[j].0);
    assert order(list[i], list[j]);
  }

  /** The ranking goes by rank sum, and among equal sums by the best result. */
  lemma RankedBySums(bests: seq<(string, real)>, spreads: seq<(string, real)>, i: nat, j: nat)
    requires Scanned(bests, spreads) && |bests| == |spreads| && i < j < |Ranking(bests, spreads)|
    ensures var a, b, sums := Ranking(bests, spreads)[i].0, Ranking(bests, spreads)[j].0, Sums(bests, spreads);
      Lookup(sums, a, 0) < Lookup(sums, b, 0)
      || (Lookup(sums, a, 0) == Lookup(sums, b, 0) && Lookup(bests, a, 0.0) <= Lookup(bests, b, 0.0))
  {
    var sums, order := Sums(bests, spreads), RankOrder(bests);
    var list := Sorted(sums, order);
    SumsKeys(bests, spreads);
    SortedKeys(sums, order);
    RankOrderIsOrder(bests);
    SortedIsInOrder(sums, order);
    SortedEntry(sums, order, i, 0);
    SortedEntry(sums, order, j, 0);
    assert !order(list[j], list[i]);
  }

  lemma ScanIsScanned(knobs: seq<Knob>, plan: seq<seq<string>>, performance: seq<real>)
    requires DistinctNames(knobs) && |plan| == |knobs| && Start(plan, |plan|) <= |performance|
    ensures Scanned(Bests(knobs, plan, performance, |plan|), Spreads(knobs, plan, performance, |plan|))
    ensures KeysOf(Bests(knobs, plan, performance, |plan|)) == Tried(knobs, plan, |plan|)
  {
    NamesOfScan(knobs, plan, performance, |plan|);
    TriedNames(knobs, plan, |plan|);
    DistinctByKeys(Bests(knobs, plan, performance, |plan|));
  }

  lemma DistinctByKeys(entries: seq<(string, real)>)
    requires forall i, j :: 0 <= i < j < |entries| ==> KeysOf(entries)[i] != KeysOf(entries)[j]
    ensures DistinctKeys(entries)
  {
    forall i, j | 0 <= i < j < |entries| ensures entries[i].0 != entries[j].0 {
      assert KeysOf(entries)[i] != KeysOf(entries)[j];
    }
  }

  // ---- the manager ----

  lemma WithoutPair(a: string, b: string, t: string)
    ensures Without([a, b], t) == (if a != t then [a] else []) + (if b != t then [b] else [])
  {
    WithoutConcat([a], [b], t);
    WithoutOne(a, t);
    WithoutOne(b, t);
    assert [a, b] == [a] + [b];
  }

  /** The values of a knob that differ from its default; a range without a pair of bounds is an
  error. */
  method ValuesToTry(s: Setup, i: nat) returns (failed: bool, values: seq<string>)
    requires i < |s.knobs| == |s.defaults|
    ensures failed <==> !s.Bounded(i)
    ensures !failed ==> values == s.Values(i)
  {
    failed, values := false, [];
    match s.knobs[i]
    case Options(_, options) =>
      for j := 0 to |options|
        invariant values == Without(options[..j], s.defaults[i])
      {
        assert options[..j + 1][..j] == options[..j];
        if options[j] != s.defaults[i] {
          values := values + [options[j]];
        }
      }
      assert options[..|options|] == options;
    case Range(_, bounds) =>
      if |bounds| < 2 {
        failed := true;
        return;
      }
      var pairs := bounds[..|bounds| - |bounds| % 2];
      var high, low := s.text(Max(pairs)), s.text(Min(pairs));
      if high != s.defaults[i] {
        values := values + [high];
      }
      if low != s.defaults[i] {
        values := values + [low];
      }
      WithoutPair(high, low, s.defaults[i]);
  }

  /** The trials of one knob. */
  method AddRuns(defaults: seq<string>, i: nat, values: seq<string>, trials: seq<seq<string>>, varied: seq<int>)
    returns (trials': seq<seq<string>>, varied': seq<int>)
    requires i < |defaults|
    ensures trials' == trials + Runs(defaults, i, values) && varied' == varied + seq(|values|, _ => i)
  {
    trials', varied' := trials, varied;
    for j := 0 to |values|
      invariant trials' == trials + Runs(defaults, i, values)[..j] && varied' == varied + seq(j, _ => i)
    {
      trials' := trials' + [defaults[i := values[j]]];
      varied' := varied' + [i];
    }
  }

  /** The trials of all knobs. */
  method TraverseTrials(s: Setup) returns (failed: bool, trials: seq<seq<string>>, varied: seq<int>)
    requires |s.knobs| == |s.defaults|
    ensures failed <==> exists i :: 0 <= i < |s.knobs| && !s.Bounded(i)
    ensures !failed ==> trials == Trials(s.defaults, s.Plan(), |s.knobs|) && varied == Varied(s.Plan(), |s.knobs|)
  {
    ghost var bad;
    failed, trials, varied, bad := TrialsOfPlan(s, s.Plan());
  }

  method TrialsOfPlan(s: Setup, ghost plan: seq<seq<string>>)
    returns (failed: bool, trials: seq<seq<string>>, varied: seq<int>, ghost bad: nat)
    requires |plan| == |s.knobs| == |s.defaults| && forall i :: 0 <= i < |plan| ==> plan[i] == s.Values(i)
    ensures if failed then bad < |s.knobs| && !s.Bounded(bad) else forall i :: 0 <= i < |s.knobs| ==> s.Bounded(i)
    ensures !failed ==> trials == Trials(s.defaults, plan, |plan|) && varied == Varied(plan, |plan|)
  {
    failed, trials, varied, bad := false, [s.defaults], [-1], 0;
    for i := 0 to |s.knobs|
      invariant !failed && trials == Trials(s.defaults, plan, i) && varied == Varied(plan, i)
      invariant forall k :: 0 <= k < i ==> s.Bounded(k)
    {
      bad := i;
      failed, trials, varied := TrialsOfNext(s, i, trials, varied, plan);
      if failed {
        return;
      }
    }
  }

  /** One more knob. */
  method TrialsOfNext(s: Setup, i: nat, before: seq<seq<string>>, knobs: seq<int>, ghost plan: seq<seq<string>>)
    returns (failed: bool, trials: seq<seq<string>>, varied: seq<int>)
    requires i < |plan| == |s.knobs| == |s.defaults| && plan[i] == s.Values(i)
    requires before == Trials(s.defaults, plan, i) && knobs == Varied(plan, i)
    ensures failed <==> !s.Bounded(i)
    ensures !failed ==> trials == Trials(s.defaults, plan, i + 1) && varied == Varied(plan, i + 1)
  {
    var values;
    failed, values := ValuesToTry(s, i);
    trials, varied := before, knobs;
    if !failed {
      trials, varied := AddRuns(s.defaults, i, values, before, knobs);
    }
  }

  /** The loop of the scan. Results and knobs are read at one index, which skips over the runs of a
  knob at a time; it meets every knob tried once and stays within bounds. */
  method ScanAll(knobs: seq<Knob>, varied: seq<int>, performance: seq<real>, ghost plan: seq<seq<string>>)
    returns (failed: bool, bests: seq<(string, real)>, spreads: seq<(string, real)>)
    requires DistinctNames(knobs) && Plans(knobs, plan) && varied == Varied(plan, |plan|)
    requires |performance| == |varied| == Start(plan, |plan|)
    ensures failed <==> EndsWithNone(knobs, plan)
    ensures !failed ==> bests == Bests(knobs, plan, performance, |plan|)
    ensures !failed ==> spreads == Spreads(knobs, plan, performance, |plan|)
  {
    var index := 1;
    failed, bests, spreads := false, [], [];
    ghost var k: nat := 0;
    while index < |varied|
      invariant k <= |plan| && index == Start(plan, k) <= |varied|
      invariant ScannedUpTo(knobs, plan, performance, k, bests, spreads) && !failed
      decreases |varied| - index
    {
      failed, index, bests, spreads, k := ScanNext(knobs, varied, performance, index, bests, spreads, plan, k);
      if failed {
        return;
      }
    }
    StartsGrow(plan, k, |plan|);
    RestIsEmpty(knobs, plan, performance, k, bests, spreads);
  }

  /** The next knob that was tried. */
  method ScanNext(knobs: seq<Knob>, varied: seq<int>, performance: seq<real>, index: nat, bests: seq<(string, real)>,
                  spreads: seq<(string, real)>, ghost plan: seq<seq<string>>, ghost k: nat)
    returns (failed: bool, index': nat, bests': seq<(string, real)>, spreads': seq<(string, real)>, ghost k': nat)
    requires DistinctNames(knobs) && Plans(knobs, plan) && varied == Varied(plan, |plan|)
    requires |performance| == |varied| == Start(plan, |plan|)
    requires k <= |plan| && index == Start(plan, k) < |varied|
    requires ScannedUpTo(knobs, plan, performance, k, bests, spreads)
    ensures failed ==> EndsWithNone(knobs, plan)
    ensures !failed ==> k' <= |plan| && index < index' == Start(plan, k') <= |varied|
    ensures !failed ==> ScannedUpTo(knobs, plan, performance, k', bests', spreads')
  {
    k' := NextTried(knobs, plan, performance, k, bests, spreads);
    StartsGrow(plan, k' + 1, |plan|);
    failed, index', bests', spreads' := ScanKnob(knobs, varied, performance, index, bests, spreads, plan, k');
    k' := k' + 1;
  }

  class KnobTraverseManager {
    const setup: Setup
    var varied: seq<int>
    var bests: seq<(string, real)>
    var maxEval: nat

    constructor (setup: Setup)
      requires setup.Valid()
      ensures this.setup == setup && varied == [] && bests == []
    {
      this.setup := setup;
      varied, bests, maxEval := [], [], 0;
    }

    /** The baseline, and one trial per value of each knob; the announced budget is their number. */
    method GetTraverseList() returns (failed: bool, trials: seq<seq<string>>)
      requires setup.Valid() && varied == []
      modifies this`varied, this`maxEval
      ensures failed <==> exists i :: 0 <= i < |setup.knobs| && !setup.Bounded(i)
      ensures !failed ==> trials == Trials(setup.defaults, setup.Plan(), |setup.knobs|)
      ensures !failed ==> varied == Varied(setup.Plan(), |setup.knobs|) && maxEval == |trials|
    {
      var tested;
      failed, trials, tested := TraverseTrials(setup);
      varied := tested;
      maxEval := |trials|;
    }

    /** The scan of the results, one per trial. */
    method Scan(performance: seq<real>) returns (failed: bool, spreads: seq<(string, real)>)
      requires setup.Valid() && varied == Varied(setup.Plan(), |setup.knobs|) && bests == []
      requires |performance| == |varied|
      modifies this`bests
      ensures failed <==> EndsWithNone(setup.knobs, setup.Plan())
      ensures |performance| == Start(setup.Plan(), |setup.knobs|)
      ensures !failed ==> bests == Bests(setup.knobs, setup.Plan(), performance, |setup.knobs|)
      ensures !failed ==> spreads == Spreads(setup.knobs, setup.Plan(), performance, |setup.knobs|)
    {
      PlanSizes(setup);
      VariedSize(setup.Plan(), |setup.knobs|);
      failed, bests, spreads := ScanAll(setup.knobs, varied, performance, setup.Plan());
    }

    /** The ranking of the knobs tried, scored from their number down to one. It fails exactly when
    the scan runs past the last result. */
    method GetTraverseRank(performance: seq<real>) returns (failed: bool, ranking: seq<(string, nat)>)
      requires setup.Valid() && varied == Varied(setup.Plan(), |setup.knobs|) && bests == []
      requires |performance| == |varied|
      modifies this`bests
      ensures |performance| == Start(setup.Plan(), |setup.knobs|)
      ensures failed <==> EndsWithNone(setup.knobs, setup.Plan())
      ensures var plan, n := setup.Plan(), |setup.knobs|;
        var results, spreads := Bests(setup.knobs, plan, performance, n), Spreads(setup.knobs, plan, performance, n);
        !failed ==> |results| == |spreads| && ranking == Ranking(results, spreads)
      ensures !failed ==> multiset(KeysOf(ranking)) == multiset(Tried(setup.knobs, setup.Plan(), |setup.knobs|))
      ensures !failed ==> forall i :: 0 <= i < |ranking| ==> ranking[i].1 == |ranking| - i
    {
      var spreads;
      failed, spreads := Scan(performance);
      ranking := [];
      if failed {
        return;
      }
      ScanIsScanned(setup.knobs, setup.Plan(), performance);
      ScannedKeys(bests, spreads);
      RankingIsPermutation(bests, spreads);
      SortedIsPermutation(bests, Ascending);
      SortedIsPermutation(spreads, Descending);
      var byBest, bySpread := Sorted(bests, Ascending), Sorted(spreads, Descending);
      var ranks: seq<(string, int)> := [];
      for i := 0 to |byBest|
        invariant ranks == RankSums(byBest, bySpread, i)
      {
        ranks := AddRank(ranks, byBest[i].0, i + 1);
        ranks := AddRank(ranks, bySpread[i].0, i + 1);
      }
      ranking := Scored(Sorted(ranks, RankOrder(bests)));
    }
  }
}
