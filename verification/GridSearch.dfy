/** Grid search (analysis/optimizer/gridsearch_tuning_manager.py). A dictionary of parameters and
their items is expanded into one dictionary per combination. */
module GridSearch {
  import opened Dicts
  import opened Measurements
  import opened Prelude

  type Row = seq<(string, string)>
  type Params = seq<(string, seq<string>)>

  /** A Python dictionary: entries with distinct keys, in insertion order. */
  class Dict<V> {
    var entries: seq<(string, V)>

    constructor (entries: seq<(string, V)>)
      ensures this.entries == entries
    {
      this.entries := entries;
    }

    method Set(key: string, value: V)
      modifies this
      ensures entries == Assigned(old(entries), key, value)
    {
      for i := 0 to |entries|
        invariant entries == old(entries)
        invariant Assigned(entries, key, value) == entries[..i] + Assigned(entries[i..], key, value)
      {
        assert entries[i..][1..] == entries[i + 1..];
        if entries[i].0 == key {
          assert entries[..i] + ([(key, value)] + entries[i + 1..]) == entries[i := (key, value)];
          entries := entries[i := (key, value)];
          return;
        }
      }
      entries := entries + [(key, value)];
    }

    method PopFirst() returns (key: string, value: V)
      requires entries != []
      modifies this
      ensures (key, value) == old(entries[0]) && entries == old(entries[1..])
    {
      key, value := entries[0].0, entries[0].1;
      entries := entries[1..];
    }

    method DeepCopy() returns (copy: Dict<V>)
      ensures fresh(copy) && copy.entries == entries
    {
      copy := new Dict(entries);
    }
  }

  // ---- the grid ----

  /** One row per value of a single parameter. */
  function Singles(key: string, items: seq<string>): (rows: seq<Row>)
    ensures |rows| == |items|
    ensures forall i :: 0 <= i < |rows| ==> rows[i] == [(key, items[i])]
  {
    seq(|items|, i requires 0 <= i < |items| => [(key, items[i])])
  }

  function Extended(rows: seq<Row>, key: string, item: string): (more: seq<Row>)
    ensures |more| == |rows|
    ensures forall i :: 0 <= i < |rows| ==> more[i] == rows[i] + [(key, item)]
  {
    seq(|rows|, i requires 0 <= i < |rows| => rows[i] + [(key, item)])
  }

  /** The rows extended by each item in turn. */
  function Blocks(rows: seq<Row>, key: string, items: seq<string>): seq<Row> {
    if items == [] then []
    else Blocks(rows, key, items[..|items| - 1]) + Extended(rows, key, items[|items| - 1])
  }

  function Grid(params: Params): seq<Row>
    requires params != []
  {
    if |params| == 1 then Singles(params[0].0, params[0].1)
    else Blocks(Grid(params[1..]), params[0].0, params[0].1)
  }

  // ---- the grid is the product of the items, in lexicographic order ----

  function Size(params: Params): nat {
    if params == [] then 1 else |params[0].1| * Size(params[1..])
  }

  /** A choice of one item per parameter, by position. */
  ghost predicate IsChoice(params: Params, picks: seq<nat>) {
    |picks| == |params| && forall i :: 0 <= i < |picks| ==> picks[i] < |params[i].1|
  }

  /** The row of a choice, the last parameter's entry first. */
  function RowOf(params: Params, picks: seq<nat>): Row
    requires IsChoice(params, picks)
  {
    if params == [] then []
    else RowOf(params[1..], picks[1..]) + [(params[0].0, params[0].1[picks[0]])]
  }

  /** The position of a choice in the grid, and the choice at a position. */
  function Position(params: Params, picks: seq<nat>): nat
    requires |picks| == |params|
  {
    if params == [] then 0 else picks[0] * Size(params[1..]) + Position(params[1..], picks[1..])
  }

  function ChoiceAt(params: Params, p: nat): (picks: seq<nat>)
    requires p < Size(params)
    ensures IsChoice(params, picks)
  {
    if params == [] then []
    else
      var rest := Size(params[1..]);
      Digits(p, |params[0].1|, rest);
      [p / rest] + ChoiceAt(params[1..], p % rest)
  }

  lemma Digits(p: nat, n: nat, rest: nat)
    requires p < n * rest
    ensures rest > 0 && p / rest < n && p == p / rest * rest + p % rest
  {
    assert rest != 0;
    TimesBelow(p / rest, n, rest);
  }

  lemma JoinDigits(d: nat, n: nat, rest: nat, r: nat)
    requires d < n && r < rest
    ensures d * rest + r < n * rest && (d * rest + r) / rest == d && (d * rest + r) % rest == r
  {
    TimesBefore(d, n, rest);
    QuotientIs(d * rest + r, rest, d, r);
  }

  /** Choices and positions correspond one to one. */
  lemma {:induction false} PositionOfChoice(params: Params, p: nat)
    requires p < Size(params)
    ensures Position(params, ChoiceAt(params, p)) == p
  {
    if params != [] {
      var rest := Size(params[1..]);
      Digits(p, |params[0].1|, rest);
      PositionOfChoice(params[1..], p % rest);
    }
  }

  lemma {:induction false} ChoiceOfPosition(params: Params, picks: seq<nat>)
    requires IsChoice(params, picks)
    ensures Position(params, picks) < Size(params) && ChoiceAt(params, Position(params, picks)) == picks
  {
    if params != [] {
      ChoiceOfPosition(params[1..], picks[1..]);
      JoinDigits(picks[0], |params[0].1|, Size(params[1..]), Position(params[1..], picks[1..]));
    }
  }

  lemma {:induction false} BlocksAt(rows: seq<Row>, key: string, items: seq<string>, j: nat, i: nat)
    requires i < |rows| && j < |items|
    ensures |Blocks(rows, key, items)| == |items| * |rows|
    ensures j * |rows| + i < |items| * |rows|
    ensures Blocks(rows, key, items)[j * |rows| + i] == rows[i] + [(key, items[j])]
  {
    BlocksSize(rows, key, items);
    TimesBefore(j, |items|, |rows|);
    var front := items[..|items| - 1];
    BlocksSize(rows, key, front);
    if j < |front| {
      BlocksAt(rows, key, front, j, i);
    }
  }

  lemma {:induction false} BlocksSize(rows: seq<Row>, key: string, items: seq<string>)
    ensures |Blocks(rows, key, items)| == |items| * |rows|
  {
    if items != [] {
      BlocksSize(rows, key, items[..|items| - 1]);
      assert |items| * |rows| == (|items| - 1) * |rows| + |rows|;
    }
  }

  lemma {:induction false} GridSize(params: Params)
    requires params != []
    ensures |Grid(params)| == Size(params)
  {
    if |params| == 1 {
      assert Size(params[1..]) == 1;
    } else {
      GridSize(params[1..]);
      BlocksSize(Grid(params[1..]), params[0].0, params[0].1);
    }
  }

  /** The grid holds, at the position of each choice, the row of that choice, and nothing else. */
  lemma {:induction false} GridAt(params: Params, p: nat)
    requires params != [] && p < Size(params)
    ensures |Grid(params)| == Size(params) && Grid(params)[p] == RowOf(params, ChoiceAt(params, p))
  {
    GridSize(params);
    if |params| == 1 {
      SingleAt(params, p);
    } else {
      var d, r := ChoiceNext(params, p);
      GridAt(params[1..], r);
      GridNext(params, d, r, ChoiceAt(params[1..], r), p);
    }
  }

  /** The first pick at a position, and the position of the others. */
  lemma ChoiceNext(params: Params, p: nat) returns (d: nat, r: nat)
    requires params != [] && p < Size(params)
    ensures d < |params[0].1| && r < Size(params[1..]) && p == d * Size(params[1..]) + r
    ensures ChoiceAt(params, p) == [d] + ChoiceAt(params[1..], r)
  {
    var rest := Size(params[1..]);
    Digits(p, |params[0].1|, rest);
    d, r := p / rest, p % rest;
  }

  lemma GridNext(params: Params, d: nat, r: nat, rest: seq<nat>, p: nat)
    requires |params| > 1 && d < |params[0].1| && IsChoice(params[1..], rest)
    requires r < |Grid(params[1..])| && Grid(params[1..])[r] == RowOf(params[1..], rest)
    requires p == d * |Grid(params[1..])| + r && p < |Grid(params)|
    ensures IsChoice(params, [d] + rest) && Grid(params)[p] == RowOf(params, [d] + rest)
  {
    BlocksAt(Grid(params[1..]), params[0].0, params[0].1, d, r);
    RowOfNext(params, d, rest);
  }

  lemma RowOfNext(params: Params, d: nat, rest: seq<nat>)
    requires params != [] && d < |params[0].1| && IsChoice(params[1..], rest)
    ensures IsChoice(params, [d] + rest)
    ensures RowOf(params, [d] + rest) == RowOf(params[1..], rest) + [(params[0].0, params[0].1[d])]
  {
    assert ([d] + rest)[1..] == rest;
  }

  lemma SingleAt(params: Params, p: nat)
    requires |params| == 1 && p < Size(params)
    ensures |Grid(params)| == Size(params) && Grid(params)[p] == RowOf(params, ChoiceAt(params, p))
  {
    assert Size(params[1..]) == 1;
    assert p / 1 == p;
    assert RowOf(params[1..], ChoiceAt(params[1..], p % 1)) == [];
  }

  /** Every choice has its row in the grid exactly at its position; with distinct items per
  parameter no row occurs twice. */
  lemma GridHasEveryChoice(params: Params, picks: seq<nat>)
    requires params != [] && IsChoice(params, picks)
    ensures |Grid(params)| == Size(params) && Position(params, picks) < Size(params)
    ensures Grid(params)[Position(params, picks)] == RowOf(params, picks)
  {
    ChoiceOfPosition(params, picks);
    GridAt(params, Position(params, picks));
  }

  ghost predicate DistinctItems(params: Params) {
    forall k, i, j :: 0 <= k < |params| && 0 <= i < j < |params[k].1| ==> params[k].1[i] != params[k].1[j]
  }

  lemma {:induction false} RowDeterminesChoice(params: Params, a: seq<nat>, b: seq<nat>)
    requires IsChoice(params, a) && IsChoice(params, b) && DistinctItems(params)
    requires RowOf(params, a) == RowOf(params, b)
    ensures a == b
  {
    if params != [] {
      var restA, restB := RowOf(params[1..], a[1..]), RowOf(params[1..], b[1..]);
      var lastA, lastB := (params[0].0, params[0].1[a[0]]), (params[0].0, params[0].1[b[0]]);
      assert (restA + [lastA])[..|restA|] == restA && (restA + [lastA])[|restA|] == lastA;
      RowSize(params[1..], a[1..]);
      RowSize(params[1..], b[1..]);
      assert (restB + [lastB])[..|restB|] == restB && (restB + [lastB])[|restB|] == lastB;
      RowDeterminesChoice(params[1..], a[1..], b[1..]);
      assert a == [a[0]] + a[1..] && b == [b[0]] + b[1..];
    }
  }

  lemma {:induction false} RowSize(params: Params, picks: seq<nat>)
    requires IsChoice(params, picks)
    ensures |RowOf(params, picks)| == |params|
    ensures forall i :: 0 <= i < |params| ==>
      RowOf(params, picks)[i] == (params[|params| - 1 - i].0, params[|params| - 1 - i].1[picks[|params| - 1 - i]])
  {
    if params != [] {
      RowSize(params[1..], picks[1..]);
    }
  }

  /** No combination is tried twice. */
  lemma GridRowsDiffer(params: Params, p: nat, q: nat)
    requires params != [] && DistinctItems(params) && p < q < Size(params)
    ensures |Grid(params)| == Size(params) && Grid(params)[p] != Grid(params)[q]
  {
    GridAt(params, p);
    GridAt(params, q);
    PositionOfChoice(params, p);
    PositionOfChoice(params, q);
    if Grid(params)[p] == Grid(params)[q] {
      RowDeterminesChoice(params, ChoiceAt(params, p), ChoiceAt(params, q));
    }
  }

  /** The first parameter where two choices differ decides. */
  predicate LexLess(a: seq<nat>, b: seq<nat>)
    requires |a| == |b|
  {
    a != [] && (a[0] < b[0] || (a[0] == b[0] && LexLess(a[1..], b[1..])))
  }

  /** The grid runs through the choices in lexicographic order. */
  lemma {:induction false} GridIsLexicographic(params: Params, a: seq<nat>, b: seq<nat>)
    requires IsChoice(params, a) && IsChoice(params, b)
    ensures Position(params, a) < Position(params, b) <==> LexLess(a, b)
  {
    if params != [] {
      var rest := Size(params[1..]);
      GridIsLexicographic(params[1..], a[1..], b[1..]);
      ChoiceOfPosition(params[1..], a[1..]);
      ChoiceOfPosition(params[1..], b[1..]);
      if a[0] < b[0] {
        TimesBefore(a[0], b[0], rest);
      } else if b[0] < a[0] {
        TimesBefore(b[0], a[0], rest);
      }
    }
  }

  // ---- expand_parameters on dictionaries that are popped, reused and copied ----

  ghost predicate Shows(dicts: seq<Dict<string>>, rows: seq<Row>)
    reads dicts
  {
    |dicts| == |rows| && forall i :: 0 <= i < |dicts| ==> dicts[i].entries == rows[i]
  }

  ghost predicate Lacks(row: Row, key: string) {
    forall i :: 0 <= i < |row| ==> row[i].0 != key
  }

  /** The entries are the row, perhaps with the key already assigned. */
  ghost predicate Reused(entries: Row, row: Row, key: string) {
    entries == row || (|entries| == |row| + 1 && entries[..|row|] == row && entries[|row|].0 == key)
  }

  lemma {:induction false} AssignedReused(entries: Row, row: Row, key: string, item: string)
    requires Reused(entries, row, key) && Lacks(row, key)
    ensures Assigned(entries, key, item) == row + [(key, item)]
  {
    if row == [] {
      assert entries == [] || entries == [entries[0]];
    } else {
      AssignedReused(entries[1..], row[1..], key, item);
      assert entries[0] == row[0];
      assert row + [(key, item)] == [row[0]] + (row[1..] + [(key, item)]);
    }
  }

  lemma GridLacksFirstKey(params: Params)
    requires |params| > 1 && DistinctKeys(params)
    ensures forall i :: 0 <= i < |Grid(params[1..])| ==> Lacks(Grid(params[1..])[i], params[0].0)
  {
    var rest := params[1..];
    GridSize(rest);
    forall i | 0 <= i < |Grid(rest)| ensures Lacks(Grid(rest)[i], params[0].0) {
      GridAt(rest, i);
      RowSize(rest, ChoiceAt(rest, i));
    }
  }

  /** The inner loop: each dictionary is assigned the item and copied. */
  method ExtendAll(dicts: seq<Dict<string>>, key: string, item: string, ghost rows: seq<Row>)
    returns (copies: seq<Dict<string>>)
    requires NoDuplicates(dicts) && |dicts| == |rows|
    requires forall i :: 0 <= i < |rows| ==> Lacks(rows[i], key)
    requires forall i :: 0 <= i < |rows| ==> Reused(dicts[i].entries, rows[i], key)
    modifies dicts
    ensures fresh(copies) && NoDuplicates(copies) && Shows(copies, Extended(rows, key, item))
    ensures Shows(dicts, Extended(rows, key, item))
  {
    copies := [];
    for i := 0 to |dicts|
      invariant |copies| == i && fresh(copies) && NoDuplicates(copies)
      invariant forall j :: 0 <= j < i ==> copies[j].entries == rows[j] + [(key, item)]
      invariant forall j :: 0 <= j < i ==> dicts[j].entries == rows[j] + [(key, item)]
      invariant forall j :: i <= j < |dicts| ==> dicts[j].entries == old(dicts[j].entries)
    {
      AssignedReused(dicts[i].entries, rows[i], key, item);
      dicts[i].Set(key, item);
      var copy := dicts[i].DeepCopy();
      copies := copies + [copy];
    }
  }

  lemma ExtendedIsReused(rows: seq<Row>, key: string, item: string)
    ensures forall i :: 0 <= i < |rows| ==> Reused(Extended(rows, key, item)[i], rows[i], key)
  {
  }

  lemma Joined(a: seq<Dict<string>>, b: seq<Dict<string>>, rowsA: seq<Row>, rowsB: seq<Row>)
    requires NoDuplicates(a) && NoDuplicates(b) && (forall d :: d in a ==> d !in b)
    requires Shows(a, rowsA) && Shows(b, rowsB)
    ensures NoDuplicates(a + b) && Shows(a + b, rowsA + rowsB)
  {
    forall i, j | 0 <= i < j < |a + b| ensures (a + b)[i] != (a + b)[j] {
      if i < |a| && j >= |a| {
        assert a[i] in a && b[j - |a|] in b;
      }
    }
  }

  /** All items in turn, reusing the dictionaries. */
  method ExtendByItems(dicts: seq<Dict<string>>, key: string, items: seq<string>, ghost rows: seq<Row>)
    returns (all: seq<Dict<string>>)
    requires NoDuplicates(dicts) && Shows(dicts, rows)
    requires forall i :: 0 <= i < |rows| ==> Lacks(rows[i], key)
    modifies dicts
    ensures fresh(all) && NoDuplicates(all) && Shows(all, Blocks(rows, key, items))
  {
    all := [];
    for j := 0 to |items|
      invariant fresh(all) && NoDuplicates(all) && Shows(all, Blocks(rows, key, items[..j]))
      invariant forall i :: 0 <= i < |rows| ==> Reused(dicts[i].entries, rows[i], key)
    {
      var copies := ExtendAll(dicts, key, items[j], rows);
      ExtendedIsReused(rows, key, items[j]);
      assert items[..j + 1][..j] == items[..j];
      Joined(all, copies, Blocks(rows, key, items[..j]), Extended(rows, key, items[j]));
      all := all + copies;
    }
    assert items[..|items|] == items;
  }

  /** The whole grid, in new dictionaries none of which is shared; the argument keeps only its last
  parameter. An empty dictionary is an index error. */
  method ExpandParameters(para: Dict<seq<string>>) returns (spaces: Option<seq<Dict<string>>>)
    requires DistinctKeys(para.entries)
    modifies para
    ensures spaces.None? <==> old(para.entries) == []
    ensures spaces.Some? ==> fresh(spaces.value) && NoDuplicates(spaces.value)
    ensures spaces.Some? ==> Shows(spaces.value, Grid(old(para.entries)))
    ensures spaces.Some? ==> para.entries == old(para.entries)[|old(para.entries)| - 1..]
    decreases |para.entries|
  {
    ghost var params := para.entries;
    if |para.entries| == 1 {
      var key, items := para.entries[0].0, para.entries[0].1;
      var singles: seq<Dict<string>> := [];
      for i := 0 to |items|
        invariant |singles| == i && fresh(singles) && NoDuplicates(singles)
        invariant forall j :: 0 <= j < i ==> singles[j].entries == [(key, items[j])]
        invariant para.entries == params
      {
        var single := new Dict([(key, items[i])]);
        singles := singles + [single];
      }
      return Some(singles);
    }
    if para.entries == [] {
      return None;
    }
    var key, items := para.PopFirst();
    var rest := ExpandParameters(para);
    GridLacksFirstKey(params);
    var all := ExtendByItems(rest.value, key, items, Grid(params[1..]));
    return Some(all);
  }

  // ---- the search ----

  function Items(row: Row): (items: seq<string>)
    ensures |items| == |row|
  {
    seq(|row|, i requires 0 <= i < |row| => row[i].1)
  }

  function Paired(keys: seq<string>, items: seq<string>): (row: Row)
    requires |keys| == |items|
  {
    seq(|keys|, i requires 0 <= i < |keys| => (keys[i], items[i]))
  }

  /** Every row lists its keys in the same order, so the keys of any row name the items of every
  other. */
  lemma RowsShareKeys(params: Params, p: nat, q: nat)
    requires params != [] && p < Size(params) && q < Size(params)
    ensures |Grid(params)| == Size(params) && KeysOf(Grid(params)[p]) == KeysOf(Grid(params)[q])
    ensures Paired(KeysOf(Grid(params)[p]), Items(Grid(params)[q])) == Grid(params)[q]
  {
    GridAt(params, p);
    GridAt(params, q);
    RowSize(params, ChoiceAt(params, p));
    RowSize(params, ChoiceAt(params, q));
  }

  /** Python's rows[done:]. */
  function From(rows: seq<Row>, done: nat): seq<Row> {
    if done <= |rows| then rows[done..] else []
  }

  /** Each row's items and the sum of its own results, in order. */
  ghost predicate Recorded(bench: Row -> seq<real>, rows: seq<Row>, options: seq<seq<string>>, performance: seq<real>) {
    && |options| == |performance| == |rows|
    && forall i :: 0 <= i < |rows| ==> options[i] == Items(rows[i]) && performance[i] == Sum(bench(rows[i]))
  }

  class GridSearchTuningManager {
    const bench: Row -> seq<real>
    const para: Dict<seq<string>>
    var names: seq<string>
    var options: seq<seq<string>>
    var performance: seq<real>
    var announced: nat

    /** What the search has left behind after trying the rows. */
    ghost predicate Tried(rows: seq<Row>)
      reads this
    {
      && Recorded(bench, rows, options, performance)
      && (rows != [] ==> names == KeysOf(rows[|rows| - 1]))
    }

    constructor (bench: Row -> seq<real>, para: Dict<seq<string>>)
      ensures this.bench == bench && this.para == para && Tried([])
    {
      this.bench := bench;
      this.para := para;
      names, options, performance, announced := [], [], [], 0;
    }

    /** One evaluation. */
    method TryRow(row: Row, ghost rows: seq<Row>)
      requires Tried(rows)
      modifies this`options, this`names, this`performance
      ensures Tried(rows + [row])
    {
      options := options + [Items(row)];
      names := KeysOf(row);
      var total := AddUp(bench(row));
      performance := performance + [total];
    }

    /** All rows but the first `done`. */
    method TryFrom(spaces: seq<Dict<string>>, done: nat, ghost rows: seq<Row>)
      requires Tried([]) && Shows(spaces, rows)
      modifies this`options, this`names, this`performance
      ensures Tried(From(rows, done))
    {
      if done > |spaces| {
        return;
      }
      for i := done to |spaces|
        invariant Tried(rows[done..i])
      {
        TryRow(spaces[i].entries, rows[done..i]);
        assert rows[done..i + 1] == rows[done..i] + [rows[i]];
      }
      assert rows[done..|spaces|] == From(rows, done);
    }

    /** The grid less the first `done` rows, whose results are known from an earlier run. */
    method DoGridsearch(done: nat) returns (failed: bool)
      requires Tried([]) && DistinctKeys(para.entries)
      modifies this, para
      ensures failed <==> old(para.entries) == []
      ensures !failed ==> Tried(From(Grid(old(para.entries)), done))
      ensures !failed ==> announced == Size(old(para.entries))
    {
      ghost var params := para.entries;
      var spaces := ExpandParameters(para);
      if spaces.None? {
        return true;
      }
      GridSize(params);
      announced := |spaces.value|;
      TryFrom(spaces.value, done, Grid(params));
      return false;
    }

    /** The parameters of the first smallest result of this run: a row of the grid, though the names
    come from the last row tried. The rows of an earlier run are not compared. Without a result
    there is nothing to pick. */
    method GetBestParams(ghost params: Params, ghost done: nat) returns (best: Row)
      requires params != [] && done < |Grid(params)| && Tried(From(Grid(params), done))
      ensures best in From(Grid(params), done)
      ensures forall i :: done <= i < |Grid(params)| ==> Sum(bench(best)) <= Sum(bench(Grid(params)[i]))
      ensures forall i :: done <= i < |Grid(params)| ==> !Beats(bench(Grid(params)[i]), bench(best))
    {
      ghost var rows := From(Grid(params), done);
      GridSize(params);
      var k := ArgMin(performance);
      RowsShareKeys(params, |Grid(params)| - 1, done + k);
      assert rows[k] == Grid(params)[done + k];
      best := Paired(names, options[k]);
      forall i | done <= i < |Grid(params)| ensures Sum(bench(best)) <= Sum(bench(Grid(params)[i])) {
        assert performance[i - done] == Sum(bench(rows[i - done]));
      }
      forall i | done <= i < |Grid(params)| ensures !Beats(bench(Grid(params)[i]), bench(best)) {
        SmallerIsUnbeaten(bench(best), bench(Grid(params)[i]));
      }
    }
  }

  /** A manager stopped after `done` rows and another one resumed there, for parameters that expand to
  the same grid, have together tried every row of the grid once, in order, with its own result. */
  lemma ResumedGridIsWhole(first: GridSearchTuningManager, second: GridSearchTuningManager,
                           params: Params, later: Params, done: nat)
    requires params != [] && later != [] && Grid(later) == Grid(params) && done <= |Grid(params)|
    requires second.bench == first.bench
    requires first.Tried(Grid(params)[..done]) && second.Tried(From(Grid(later), done))
    ensures Recorded(first.bench, Grid(params), first.options + second.options, first.performance + second.performance)
  {
    var rows := Grid(params);
    StoppedAndRest(rows, done);
    RecordedConcat(first.bench, rows[..done], From(rows, done),
      first.options, first.performance, second.options, second.performance);
  }

  lemma StoppedAndRest(rows: seq<Row>, done: nat)
    requires done <= |rows|
    ensures rows[..done] + From(rows, done) == rows
  {
  }

  lemma RecordedConcat(bench: Row -> seq<real>, rows: seq<Row>, rest: seq<Row>, options: seq<seq<string>>,
                       performance: seq<real>, options': seq<seq<string>>, performance': seq<real>)
    requires Recorded(bench, rows, options, performance) && Recorded(bench, rest, options', performance')
    ensures Recorded(bench, rows + rest, options + options', performance + performance')
  {
  }

  ghost predicate IsLeast(bench: Row -> seq<real>, best: Row, rows: seq<Row>) {
    forall i :: 0 <= i < |rows| ==> Sum(bench(best)) <= Sum(bench(rows[i]))
  }

  /** Whatever row with a smallest result of the run is picked, it has the smallest of the whole grid. */
  ghost predicate PicksBest(bench: Row -> seq<real>, rows: seq<Row>, done: nat) {
    forall best :: best in From(rows, done) && IsLeast(bench, best, From(rows, done)) ==> IsLeast(bench, best, rows)
  }

  /** Every row that was skipped is tried again under another position. */
  ghost predicate SkippedAgain(rows: seq<Row>, done: nat)
    requires done <= |rows|
  {
    forall i :: 0 <= i < done ==> rows[i] in From(rows, done)
  }

  /** The row picked after a run is the best of the grid, whatever the benchmark, exactly when every row
  it skipped is among those it tried. */
  lemma PickIsBestIff(params: Params, done: nat)
    requires params != [] && done < Size(params)
    ensures |Grid(params)| == Size(params)
    ensures (forall bench: Row -> seq<real> :: PicksBest(bench, Grid(params), done)) <==>
      SkippedAgain(Grid(params), done)
  {
    var rows := Grid(params);
    GridSize(params);
    if SkippedAgain(rows, done) {
      forall bench: Row -> seq<real> ensures PicksBest(bench, rows, done) {
        SkippedAgainPicksBest(bench, rows, done);
      }
    } else {
      var i :| 0 <= i < done && rows[i] !in From(rows, done);
      var bench := SkippedIsBetter(rows, done, i);
      assert !PicksBest(bench, rows, done);
    }
  }

  lemma SkippedAgainPicksBest(bench: Row -> seq<real>, rows: seq<Row>, done: nat)
    requires done <= |rows| && SkippedAgain(rows, done)
    ensures PicksBest(bench, rows, done)
  {
    var rest := From(rows, done);
    forall best | best in rest && IsLeast(bench, best, rest) ensures IsLeast(bench, best, rows) {
      forall i | 0 <= i < |rows| ensures Sum(bench(best)) <= Sum(bench(rows[i])) {
        assert rows[i] in rest by {
          assert i >= done ==> rest[i - done] == rows[i];
        }
        var j :| 0 <= j < |rest| && rest[j] == rows[i];
      }
    }
  }

  /** A benchmark by which a skipped row beats all that are tried. */
  lemma SkippedIsBetter(rows: seq<Row>, done: nat, i: nat) returns (bench: Row -> seq<real>)
    requires i < done < |rows| && rows[i] !in From(rows, done)
    ensures !PicksBest(bench, rows, done)
  {
    var skipped, rest := rows[i], From(rows, done);
    bench := row => if row == skipped then [0.0] else [1.0];
    assert Sum([0.0]) == 0.0 && Sum([1.0]) == 1.0;
    assert forall j :: 0 <= j < |rest| ==> rest[j] in rest && bench(rest[j]) == [1.0];
    assert rest[0] in rest && IsLeast(bench, rest[0], rest);
    assert bench(rows[i]) == [0.0] && !IsLeast(bench, rest[0], rows);
  }

  /** With distinct items that is when the run was not a resumed one. */
  lemma PickIsBestIffNotResumed(params: Params, done: nat)
    requires params != [] && DistinctItems(params) && done < Size(params)
    ensures (forall bench: Row -> seq<real> :: PicksBest(bench, Grid(params), done)) <==> done == 0
  {
    var rows := Grid(params);
    PickIsBestIff(params, done);
    if done > 0 {
      forall j | 0 <= j < |From(rows, done)| ensures From(rows, done)[j] != rows[0] {
        GridRowsDiffer(params, 0, done + j);
      }
      assert rows[0] !in From(rows, done);
    }
  }
}
