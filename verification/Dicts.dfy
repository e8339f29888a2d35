/** Python dictionaries as lists of entries with distinct keys, in insertion order. */
module Dicts {

  ghost predicate DistinctKeys<V>(entries: seq<(string, V)>) {
    forall i, j :: 0 <= i < j < |entries| ==> entries[i].0 != entries[j].0
  }

  /** The entries after an assignment: a known key keeps its place, a new one goes to the end. */
  function Assigned<V>(entries: seq<(string, V)>, key: string, value: V): seq<(string, V)> {
    if entries == [] then [(key, value)]
    else if entries[0].0 == key then [(key, value)] + entries[1..]
    else [entries[0]] + Assigned(entries[1..], key, value)
  }

  function Lookup<V>(entries: seq<(string, V)>, key: string, missing: V): V {
    if entries == [] then missing
    else if entries[0].0 == key then entries[0].1
    else Lookup(entries[1..], key, missing)
  }

  function KeysOf<V>(entries: seq<(string, V)>): (keys: seq<string>)
    ensures |keys| == |entries|
  {
    seq(|entries|, i requires 0 <= i < |entries| => entries[i].0)
  }

  predicate HasKey<V>(entries: seq<(string, V)>, key: string) {
    exists i :: 0 <= i < |entries| && entries[i].0 == key
  }

  lemma {:induction false} AssignedLookup<V>(entries: seq<(string, V)>, key: string, value: V, x: string, missing: V)
    ensures Lookup(Assigned(entries, key, value), x, missing) == if x == key then value else Lookup(entries, x, missing)
  {
    if entries != [] && entries[0].0 != key {
      AssignedLookup(entries[1..], key, value, x, missing);
      assert Assigned(entries, key, value)[1..] == Assigned(entries[1..], key, value);
    }
  }

  lemma {:induction false} AssignedTwice<V>(entries: seq<(string, V)>, key: string, first: V, second: V)
    ensures Assigned(Assigned(entries, key, first), key, second) == Assigned(entries, key, second)
  {
    if entries != [] && entries[0].0 != key {
      AssignedTwice(entries[1..], key, first, second);
    }
  }

  /** A new key goes to the end. */
  lemma {:induction false} AssignedNew<V>(entries: seq<(string, V)>, key: string, value: V)
    requires !HasKey(entries, key)
    ensures Assigned(entries, key, value) == entries + [(key, value)]
  {
    if entries != [] {
      assert entries[0].0 != key;
      forall i | 0 <= i < |entries[1..]| ensures entries[1..][i].0 != key {
        assert entries[i + 1].0 != key;
      }
      AssignedNew(entries[1..], key, value);
    }
  }

  /** A known key keeps its place. */
  lemma {:induction false} AssignedKnown<V>(entries: seq<(string, V)>, i: nat, value: V)
    requires DistinctKeys(entries) && i < |entries|
    ensures Assigned(entries, entries[i].0, value) == entries[i := (entries[i].0, value)]
  {
    if i > 0 {
      var key, rest := entries[i].0, entries[1..];
      assert rest[i - 1].0 == key && entries[0].0 != key;
      assert DistinctKeys(rest);
      AssignedKnown(rest, i - 1, value);
      assert [entries[0]] + rest[i - 1 := (key, value)] == entries[i := (key, value)];
    }
  }

  lemma AssignedKeys<V>(entries: seq<(string, V)>, key: string, value: V)
    requires DistinctKeys(entries)
    ensures DistinctKeys(Assigned(entries, key, value))
    ensures forall x :: HasKey(Assigned(entries, key, value), x) <==> x == key || HasKey(entries, x)
  {
    var after := Assigned(entries, key, value);
    if HasKey(entries, key) {
      var i :| 0 <= i < |entries| && entries[i].0 == key;
      AssignedKnown(entries, i, value);
    } else {
      AssignedNew(entries, key, value);
      assert after[|entries|].0 == key;
    }
    forall x ensures HasKey(after, x) <==> x == key || HasKey(entries, x) {
      if HasKey(entries, x) {
        var i :| 0 <= i < |entries| && entries[i].0 == x;
        assert after[i].0 == x;
      }
    }
  }

  lemma {:induction false} LookupAt<V>(entries: seq<(string, V)>, i: nat, missing: V)
    requires DistinctKeys(entries) && i < |entries|
    ensures Lookup(entries, entries[i].0, missing) == entries[i].1
  {
    if i > 0 {
      LookupAt(entries[1..], i - 1, missing);
    }
  }
}
