/** Spreading tuning objects over a cluster, and sending each node its scripts
(common/tuning/optimizer.go). One function lays the objects out, another recomputes where they are. */
module ClusterSync {
  import opened Prelude
  import opened Texts

  /** A tuning object: `info` stands for its scripts and ranges, `except` for the addresses it is not
  for. Clusters are the addresses it is for; Go's nil is None. */
  datatype Entry = Entry(name: string, info: string, except: string, clusters: Option<seq<string>>)

  type Groups = seq<seq<string>>

  /** The address groups of the configuration. */
  function GroupsOf(connect: string): (groups: Groups)
    ensures groups != [] && forall i :: 0 <= i < |groups| ==> groups[i] != []
  {
    var parts := Split(TrimSpace(connect), '-');
    seq(|parts|, i requires 0 <= i < |parts| => Split(TrimSpace(parts[i]), ','))
  }

  function ExceptOf(e: Entry): seq<string> {
    Split(TrimSpace(e.except), ',')
  }

  /** The addresses of a group that are not excepted. */
  function Remaining(group: seq<string>, except: seq<string>): seq<string> {
    if group == [] then []
    else Remaining(group[..|group| - 1], except) + (if group[|group| - 1] in except then [] else [group[|group| - 1]])
  }

  lemma RemainingNext(group: seq<string>, except: seq<string>, i: nat)
    requires i < |group|
    ensures var before := Remaining(group[..i], except);
      Remaining(group[..i + 1], except) == if group[i] in except then before else before + [group[i]]
  {
    assert group[..i + 1][..i] == group[..i];
  }

  /** They are nil if there are none. */
  function ClustersFor(group: seq<string>, except: seq<string>): Option<seq<string>> {
    if Remaining(group, except) == [] then None else Some(Remaining(group, except))
  }

  predicate IsFor(e: Entry, address: string) {
    match e.clusters
    case None => false
    case Some(addresses) => address in addresses
  }

  lemma {:induction false} ClustersForMeans(group: seq<string>, except: seq<string>, address: string)
    ensures IsFor(Entry("", "", "", ClustersFor(group, except)), address) <==> address in group && address !in except
  {
    if group != [] {
      ClustersForMeans(group[..|group| - 1], except, address);
      assert group == group[..|group| - 1] + [group[|group| - 1]];
    }
  }

  /** Addresses keep their order, and exactly the excepted ones are left out. */
  lemma {:induction false} RemainingConcat(a: seq<string>, b: seq<string>, except: seq<string>)
    ensures Remaining(a + b, except) == Remaining(a, except) + Remaining(b, except)
  {
    if b == [] {
      assert a + b == a;
    } else {
      RemainingConcat(a, b[..|b| - 1], except);
      assert (a + b)[..|a + b| - 1] == a + b[..|b| - 1];
    }
  }

  lemma RemainingOne(address: string, except: seq<string>)
    ensures Remaining([address], except) == if address in except then [] else [address]
  {
    assert [address][..0] == [];
  }

  function Itoa(n: nat): string {
    if n == 0 then "0" else Canonical(n)
  }

  // ---- what the configured texts mean ----

  /** Addresses without white space, commas and hyphens. */
  ghost predicate Plain(addresses: seq<string>) {
    && addresses != [] && Without(addresses, ',') && Without(addresses, '-')
    && forall i :: 0 <= i < |addresses| ==> forall c :: c in addresses[i] ==> c !in SPACES
  }

  lemma {:induction false} JoinedPlain(addresses: seq<string>)
    requires Plain(addresses)
    ensures '-' !in Joined(addresses, ',') && forall c :: c in Joined(addresses, ',') ==> c !in SPACES
  {
    if |addresses| > 1 {
      JoinedPlain(addresses[..|addresses| - 1]);
    }
  }

  ghost predicate AllPlain(groups: Groups) {
    forall i :: 0 <= i < |groups| ==> groups[i] != [] && Plain(groups[i])
  }

  /** The text of each group, with commas between its addresses. */
  function GroupTexts(groups: Groups): (texts: seq<string>)
    requires forall i :: 0 <= i < |groups| ==> groups[i] != []
    ensures |texts| == |groups| && forall i :: 0 <= i < |texts| ==> texts[i] == Joined(groups[i], ',')
  {
    seq(|groups|, i requires 0 <= i < |groups| => Joined(groups[i], ','))
  }

  lemma GroupTextsPlain(groups: Groups)
    requires AllPlain(groups)
    ensures Without(GroupTexts(groups), '-')
    ensures forall i :: 0 <= i < |groups| ==> Trimmed(GroupTexts(groups)[i], SPACES)
  {
    forall i | 0 <= i < |groups| ensures '-' !in GroupTexts(groups)[i] && Trimmed(GroupTexts(groups)[i], SPACES) {
      JoinedPlain(groups[i]);
    }
  }

  /** The groups are read from a text that has commas between addresses, hyphens between groups, and
  white space around the groups. */
  lemma GroupsAreRead(groups: Groups, before: seq<string>, after: seq<string>)
    requires groups != [] && |before| == |groups| == |after| && EachIn(before, SPACES) && EachIn(after, SPACES)
    requires AllPlain(groups)
    ensures GroupsOf(Joined(Padded(GroupTexts(groups), before, after), '-')) == groups
  {
    var texts := GroupTexts(groups);
    var padded := Padded(texts, before, after);
    var connect := Joined(padded, '-');
    GroupTextsPlain(groups);
    PaddedWithout(texts, before, after, SPACES, '-');
    SplitJoined(padded, '-');
    SplitTrimmed(connect, SPACES, '-', 0);
    forall i | 0 <= i < |groups| ensures GroupsOf(connect)[i] == groups[i] {
      SplitTrimmed(connect, SPACES, '-', i);
      TrimIs(before[i], texts[i], after[i], SPACES);
      SplitJoined(groups[i], ',');
    }
  }

  /** Addresses with commas only are one group. */
  lemma CommasOnlyIsOneGroup(addresses: seq<string>)
    requires Plain(addresses)
    ensures GroupsOf(Joined(addresses, ',')) == [addresses]
  {
    var text := Joined(addresses, ',');
    JoinedPlain(addresses);
    TrimIs("", text, "", SPACES);
    assert "" + text + "" == text;
    SplitPart(text, '-');
    SplitJoined(addresses, ',');
  }

  /** The excepted addresses of an object are the list with commas between them, white space aside. */
  lemma ExceptsAreRead(e: Entry, addresses: seq<string>, before: string, after: string)
    requires Plain(addresses) && AllIn(before, SPACES) && AllIn(after, SPACES)
    requires e.except == before + Joined(addresses, ',') + after
    ensures ExceptOf(e) == addresses
  {
    JoinedPlain(addresses);
    TrimIs(before, Joined(addresses, ','), after, SPACES);
    SplitJoined(addresses, ',');
  }

  // ---- the layout ----

  /** An object of group i made from an original. */
  function InGroup(e: Entry, groups: Groups, i: nat): Entry
    requires i < |groups|
  {
    e.(name := e.name + "-" + Itoa(i), clusters := ClustersFor(groups[i], ExceptOf(e)))
  }

  /** What becomes of an original: it stays as it is if its clusters were given. */
  function Kept(e: Entry, groups: Groups): Entry
    requires groups != []
  {
    if e.clusters.Some? then e else InGroup(e, groups, 0)
  }

  /** The copies of an original for the groups from 1 to n - 1. */
  function Copies(e: Entry, groups: Groups, n: nat): (copies: seq<Entry>)
    requires 1 <= n <= |groups|
    ensures |copies| == if e.clusters.Some? then 0 else n - 1
    ensures e.clusters.None? ==> forall i :: 1 <= i < n ==> copies[i - 1] == InGroup(e, groups, i)
  {
    if e.clusters.Some? then [] else seq(n - 1, i requires 0 <= i < n - 1 => InGroup(e, groups, i + 1))
  }

  function AllKept(entries: seq<Entry>, groups: Groups): (kept: seq<Entry>)
    requires groups != []
    ensures |kept| == |entries|
    ensures forall k :: 0 <= k < |kept| ==> kept[k] == Kept(entries[k], groups)
  {
    seq(|entries|, k requires 0 <= k < |entries| => Kept(entries[k], groups))
  }

  lemma NextTimes(x: int, m: int)
    ensures (x + 1) * m == x * m + m
  {
  }

  lemma {:induction false} FlattenSize<T>(blocks: seq<seq<T>>, m: nat)
    requires forall k :: 0 <= k < |blocks| ==> |blocks[k]| == m
    ensures |Flatten(blocks)| == |blocks| * m
  {
    if blocks != [] {
      FlattenSize(blocks[..|blocks| - 1], m);
      NextTimes(|blocks| - 1, m);
    }
  }

  /** The j-th element of the k-th of blocks of equal size. */
  lemma {:induction false} FlattenAt<T>(blocks: seq<seq<T>>, m: nat, k: nat, j: nat)
    requires forall k :: 0 <= k < |blocks| ==> |blocks[k]| == m
    requires k < |blocks| && j < m
    ensures 0 <= k * m + j < |Flatten(blocks)| == |blocks| * m && Flatten(blocks)[k * m + j] == blocks[k][j]
  {
    var front := blocks[..|blocks| - 1];
    FlattenSize(blocks, m);
    FlattenSize(front, m);
    NextTimes(|front|, m);
    if k < |front| {
      FlattenAt(front, m, k, j);
    }
  }

  function Blocks(entries: seq<Entry>, groups: Groups): (blocks: seq<seq<Entry>>)
    requires groups != []
    ensures |blocks| == |entries|
    ensures forall k :: 0 <= k < |blocks| ==> blocks[k] == Copies(entries[k], groups, |groups|)
  {
    seq(|entries|, k requires 0 <= k < |entries| => Copies(entries[k], groups, |groups|))
  }

  /** All copies, object by object. */
  function AllCopies(entries: seq<Entry>, groups: Groups): seq<Entry>
    requires groups != []
  {
    Flatten(Blocks(entries, groups))
  }

  /** The objects after the duplication. */
  function Layout(entries: seq<Entry>, groups: Groups): seq<Entry>
    requires groups != []
  {
    AllKept(entries, groups) + AllCopies(entries, groups)
  }

  /** Objects whose clusters are not given yet. */
  function Open(entries: seq<Entry>): (open: nat)
    ensures open <= |entries|
  {
    if entries == [] then 0
    else Open(entries[..|entries| - 1]) + (if entries[|entries| - 1].clusters.None? then 1 else 0)
  }

  lemma {:induction false} AllCopiesSize(entries: seq<Entry>, groups: Groups, m: nat)
    requires |groups| == m + 1
    ensures |AllCopies(entries, groups)| == Open(entries) * m
  {
    if entries != [] {
      var front := entries[..|entries| - 1];
      AllCopiesSize(front, groups, m);
      AllCopiesNext(entries, groups, |front|);
      assert entries[..|entries|] == entries;
      if entries[|front|].clusters.None? {
        assert Open(entries) == Open(front) + 1;
        NextTimes(Open(front), m);
      } else {
        assert Open(entries) == Open(front);
      }
    }
  }

  ghost predicate AllOpen(entries: seq<Entry>) {
    forall k :: 0 <= k < |entries| ==> entries[k].clusters.None?
  }

  lemma {:induction false} OpenMeans(entries: seq<Entry>)
    ensures Open(entries) == |entries| <==> AllOpen(entries)
  {
    if entries != [] {
      OpenMeans(entries[..|entries| - 1]);
    }
  }

  /** Where syncConfigToOthers looks for object k of a group: n originals and m copies of each. */
  function Index(n: nat, m: nat, k: nat, i: nat): int {
    if i == 0 then k else n + k * m + i - 1
  }

  /** The j-th of the blocks' elements behind those kept. */
  lemma LaidOutAt<T>(kept: seq<T>, blocks: seq<seq<T>>, m: nat, k: nat, j: nat)
    requires forall k :: 0 <= k < |blocks| ==> |blocks[k]| == m
    requires k < |blocks| && 1 <= j <= m
    ensures 0 <= Index(|kept|, m, k, j) < |kept + Flatten(blocks)|
    ensures (kept + Flatten(blocks))[Index(|kept|, m, k, j)] == blocks[k][j - 1]
  {
    FlattenAt(blocks, m, k, j - 1);
  }

  /** The object of group i that an original becomes or is copied to. */
  function LaidFor(e: Entry, groups: Groups, i: nat): Entry
    requires i < |groups|
  {
    if i == 0 then Kept(e, groups) else InGroup(e, groups, i)
  }

  lemma FoundInLayout(entries: seq<Entry>, groups: Groups, m: nat, k: nat, i: nat)
    requires |groups| == m + 1 && (m == 0 || AllOpen(entries)) && k < |entries| && i < |groups|
    ensures 0 <= Index(|entries|, m, k, i) < |Layout(entries, groups)|
    ensures Layout(entries, groups)[Index(|entries|, m, k, i)] == LaidFor(entries[k], groups, i)
  {
    if i > 0 {
      CopyFound(entries, groups, m, k, i);
    }
  }

  lemma CopyFound(entries: seq<Entry>, groups: Groups, m: nat, k: nat, i: nat)
    requires |groups| == m + 1 && AllOpen(entries) && k < |entries| && 1 <= i < |groups|
    ensures 0 <= Index(|entries|, m, k, i) < |Layout(entries, groups)|
    ensures Layout(entries, groups)[Index(|entries|, m, k, i)] == InGroup(entries[k], groups, i)
  {
    LaidOutAt(AllKept(entries, groups), Blocks(entries, groups), m, k, i);
    BlockEntry(entries, groups, k, i);
  }

  lemma BlockEntry(entries: seq<Entry>, groups: Groups, k: nat, i: nat)
    requires k < |entries| && entries[k].clusters.None? && 1 <= i < |groups|
    ensures |Blocks(entries, groups)[k]| == |groups| - 1
    ensures Blocks(entries, groups)[k][i - 1] == InGroup(entries[k], groups, i)
  {
    assert Blocks(entries, groups)[k] == Copies(entries[k], groups, |groups|);
  }

  // ---- what runs on the server itself ----

  /** The digits a text ends with. */
  function LastDigits(t: string): (digits: string)
    ensures Digits(digits) && |digits| <= |t| && t[|t| - |digits|..] == digits
  {
    if t != "" && IsDigit(t[|t| - 1]) then LastDigits(t[..|t| - 1]) + [t[|t| - 1]] else ""
  }

  /** The group that RunSet reads from a name: the digits behind a hyphen at the end. */
  function GroupNumber(name: string): Option<nat> {
    var digits := LastDigits(name);
    if digits != "" && |digits| < |name| && name[|name| - |digits| - 1] == '-' then Some(Val(digits)) else None
  }

  lemma {:induction false} LastDigitsBehind(t: string, digits: string)
    requires t != "" && !IsDigit(t[|t| - 1]) && Digits(digits)
    ensures LastDigits(t + digits) == digits
  {
    if digits == "" {
      assert t + digits == t;
    } else {
      var front, last := digits[..|digits| - 1], digits[|digits| - 1];
      LastDigitsBehind(t, front);
      NextDigit(t + front, last);
      assert t + digits == t + front + [last];
    }
  }

  lemma NextDigit(t: string, digit: char)
    requires IsDigit(digit)
    ensures LastDigits(t + [digit]) == LastDigits(t) + [digit]
  {
    assert (t + [digit])[..|t|] == t;
  }

  lemma ItoaDenotes(n: nat)
    ensures Itoa(n) != "" && Digits(Itoa(n)) && Val(Itoa(n)) == n
  {
    CanonicalDenotes(n);
    assert Val("0") == 0;
  }

  /** The group an object was made for is read back from its name. */
  lemma GroupIsReadBack(e: Entry, groups: Groups, i: nat)
    requires i < |groups|
    ensures InGroup(e, groups, i).name == e.name + "-" + Itoa(i)
    ensures GroupNumber(InGroup(e, groups, i).name) == Some(i)
  {
    ItoaDenotes(i);
    LastDigitsBehind(e.name + "-", Itoa(i));
  }

  /** A name has a group exactly if it ends in a hyphen and digits. */
  lemma GroupNumberIff(name: string, t: string, digits: string)
    requires digits != "" && Digits(digits)
    ensures name == t + "-" + digits ==> GroupNumber(name) == Some(Val(digits))
    ensures GroupNumber(name).Some? ==>
      var number := LastDigits(name); number != "" && exists rest :: name == rest + "-" + number
  {
    if name == t + "-" + digits {
      LastDigitsBehind(t + "-", digits);
    }
    if GroupNumber(name).Some? {
      var number := LastDigits(name);
      var rest := name[..|name| - |number| - 1];
      assert name == rest + "-" + number;
    }
  }

  /** Whether RunSet runs the script of an object on the server: if its name has a group, that must be
  the first, and the server's address must be in its clusters. */
  predicate RunsHere(e: Entry, own: string, tcp: bool) {
    match GroupNumber(e.name)
    case Some(i) => i == 0 && IsFor(e, own)
    case None => IsFor(e, own) || !tcp
  }

  /** Of objects as their files give them the server runs, without TCP, all but those whose names end in a
  hyphen and a number other than zero. */
  lemma ServerRunsGiven(e: Entry, own: string)
    ensures GroupNumber(e.name) == None ==> RunsHere(e, own, false) && (RunsHere(e, own, true) <==> IsFor(e, own))
    ensures forall i :: GroupNumber(e.name) == Some(i) && i > 0 ==> !RunsHere(e, own, false)
  {
  }

  /** Of the objects made from an original the server runs that of the first group, if the server is in
  this group and the original is not excepted for it; copies for later groups it never runs. */
  lemma ServerRunsFirstGroup(e: Entry, groups: Groups, i: nat, own: string, tcp: bool)
    requires i < |groups|
    ensures RunsHere(InGroup(e, groups, i), own, tcp) <==> i == 0 && own in groups[0] && own !in ExceptOf(e)
  {
    GroupIsReadBack(e, groups, i);
    ClustersForMeans(groups[i], ExceptOf(e), own);
  }

  // ---- several projects ----

  /** The originals of the requested projects. */
  type Projects = seq<seq<Entry>>

  function Originals(ps: Projects): seq<Entry> {
    Flatten(ps)
  }

  /** The objects of the requested projects: each project is laid out by itself. */
  function Laid(ps: Projects, groups: Groups): seq<Entry>
    requires groups != []
  {
    if ps == [] then [] else Laid(ps[..|ps| - 1], groups) + Layout(ps[|ps| - 1], groups)
  }

  ghost predicate AtMostOneFilled(ps: Projects) {
    forall a, b :: 0 <= a < b < |ps| ==> ps[a] == [] || ps[b] == []
  }

  lemma {:induction false} OpenConcat(a: seq<Entry>, b: seq<Entry>)
    ensures Open(a + b) == Open(a) + Open(b)
  {
    if b == [] {
      assert a + b == a;
    } else {
      assert (a + b)[..|a + b| - 1] == a + b[..|b| - 1];
      OpenConcat(a, b[..|b| - 1]);
    }
  }

  lemma Distributes(x: int, y: int, m: int)
    ensures (x + y) * m == x * m + y * m
  {
  }

  lemma SizeOfBoth(a: seq<Entry>, b: seq<Entry>, m: nat)
    ensures |a + b| + Open(a + b) * m == |a| + Open(a) * m + |b| + Open(b) * m
  {
    OpenConcat(a, b);
    Distributes(Open(a), Open(b), m);
  }

  lemma LayoutSize(entries: seq<Entry>, groups: Groups, m: nat)
    requires |groups| == m + 1
    ensures |Layout(entries, groups)| == |entries| + Open(entries) * m
  {
    AllCopiesSize(entries, groups, m);
  }

  lemma {:induction false} LaidSize(ps: Projects, groups: Groups, m: nat)
    requires |groups| == m + 1
    ensures |Laid(ps, groups)| == |Originals(ps)| + Open(Originals(ps)) * m
  {
    if ps == [] {
      assert Open([]) == 0;
    } else {
      var front, last := ps[..|ps| - 1], ps[|ps| - 1];
      LaidSize(front, groups, m);
      LayoutSize(last, groups, m);
      SizeOfBoth(Originals(front), last, m);
      assert Originals(ps) == Originals(front) + last;
      assert Laid(ps, groups) == Laid(front, groups) + Layout(last, groups);
    }
  }

  lemma LayoutConcatOneGroup(a: seq<Entry>, b: seq<Entry>, groups: Groups)
    requires |groups| == 1
    ensures Layout(a + b, groups) == Layout(a, groups) + Layout(b, groups)
  {
    NoCopies(a, groups);
    NoCopies(b, groups);
    NoCopies(a + b, groups);
    assert AllKept(a + b, groups) == AllKept(a, groups) + AllKept(b, groups);
  }

  lemma NoCopies(entries: seq<Entry>, groups: Groups)
    requires |groups| == 1
    ensures AllCopies(entries, groups) == []
  {
    AllCopiesSize(entries, groups, 0);
  }

  lemma {:induction false} NoneFilled(ps: Projects, groups: Groups)
    requires groups != [] && Originals(ps) == []
    ensures Laid(ps, groups) == [] && forall j :: 0 <= j < |ps| ==> ps[j] == []
  {
    if ps != [] {
      var front, last := ps[..|ps| - 1], ps[|ps| - 1];
      assert Originals(ps) == Originals(front) + last;
      NoneFilled(front, groups);
      LayoutSize(last, groups, |groups| - 1);
      assert forall j :: 0 <= j < |front| ==> ps[j] == front[j];
    }
  }

  lemma {:induction false} AllEmpty(ps: Projects)
    requires forall j :: 0 <= j < |ps| ==> ps[j] == []
    ensures Originals(ps) == []
  {
    if ps != [] {
      AllEmpty(ps[..|ps| - 1]);
    }
  }

  /** With one group, or at most one project that has objects, the objects lie as those of one project. */
  lemma {:induction false} LaidAsOne(ps: Projects, groups: Groups)
    requires groups != [] && (|groups| == 1 || AtMostOneFilled(ps))
    ensures Laid(ps, groups) == Layout(Originals(ps), groups)
  {
    if ps != [] {
      var front, last := ps[..|ps| - 1], ps[|ps| - 1];
      LaidAsOne(front, groups);
      if |groups| == 1 {
        LayoutConcatOneGroup(Originals(front), last, groups);
      } else if last == [] {
        assert Originals(ps) == Originals(front);
      } else {
        AllEmpty(front);
        assert Originals(ps) == last;
      }
    }
  }

  /** The condition under which the objects lie where they are looked for. */
  ghost predicate Orderly(ps: Projects, m: nat) {
    m == 0 || (AllOpen(Originals(ps)) && AtMostOneFilled(ps))
  }

  /** The recomputed index is then that of the object laid out for the original and the group. */
  lemma IndexFindsObject(ps: Projects, groups: Groups, m: nat, k: nat, i: nat)
    requires |groups| == m + 1 && Orderly(ps, m) && k < |Originals(ps)| && i <= m
    ensures FoundAt(ps, groups, m, k, i)
  {
    LaidAsOne(ps, groups);
    FoundInLayout(Originals(ps), groups, m, k, i);
  }

  /** With one script per object, the number of scripts divided by the number of groups is the number
  of originals exactly when there is one group or no object came with its clusters given. */
  lemma QuotientIsCountIff(ps: Projects, groups: Groups, m: nat)
    requires |groups| == m + 1
    ensures |Laid(ps, groups)| / (m + 1) == |Originals(ps)| <==> m == 0 || AllOpen(Originals(ps))
  {
    LaidSize(ps, groups, m);
    OpenMeans(Originals(ps));
    QuotientIff(|Laid(ps, groups)|, |Originals(ps)|, Open(Originals(ps)), m);
  }

  ghost predicate FoundAt(ps: Projects, groups: Groups, m: nat, k: nat, i: nat)
    requires |groups| == m + 1 && k < |Originals(ps)| && i <= m
  {
    && 0 <= Index(|Originals(ps)|, m, k, i) < |Laid(ps, groups)|
    && Laid(ps, groups)[Index(|Originals(ps)|, m, k, i)] == LaidFor(Originals(ps)[k], groups, i)
  }

  /** The layout fits the recomputed indices: the scripts divide into one for each original and group,
  and every index is that of its object. */
  ghost predicate Fits(ps: Projects, groups: Groups, m: nat)
    requires |groups| == m + 1
  {
    && |Laid(ps, groups)| / (m + 1) == |Originals(ps)|
    && forall k, i :: 0 <= k < |Originals(ps)| && 0 <= i <= m ==> FoundAt(ps, groups, m, k, i)
  }

  lemma BothFilled(ps: Projects, groups: Groups)
    requires groups != [] && ps != [] && !AtMostOneFilled(ps) && AtMostOneFilled(ps[..|ps| - 1])
    ensures Originals(ps[..|ps| - 1]) != [] && ps[|ps| - 1] != []
  {
    var front := ps[..|ps| - 1];
    var a, b :| 0 <= a < b < |ps| && ps[a] != [] && ps[b] != [];
    assert forall j :: 0 <= j < |front| ==> front[j] == ps[j];
    if Originals(front) == [] {
      NoneFilled(front, groups);
    }
  }

  lemma FirstCopy(entries: seq<Entry>, groups: Groups)
    requires |groups| > 1 && entries != [] && AllOpen(entries)
    ensures |entries| < |Layout(entries, groups)|
    ensures Layout(entries, groups)[|entries|] == InGroup(entries[0], groups, 1)
  {
    CopyFound(entries, groups, |groups| - 1, 0, 1);
  }

  /** Behind the originals of the first project that has objects lies a copy, where the first object
  of the next such project is looked for. */
  lemma {:induction false} CopyInTheWay(ps: Projects, groups: Groups) returns (k: nat, e: Entry)
    requires |groups| > 1 && AllOpen(Originals(ps)) && !AtMostOneFilled(ps)
    ensures k < |Originals(ps)| && k < |Laid(ps, groups)| && Laid(ps, groups)[k] == InGroup(e, groups, 1)
  {
    var front, last := ps[..|ps| - 1], ps[|ps| - 1];
    var p := Originals(front);
    assert Originals(ps) == p + last;
    assert Laid(ps, groups) == Laid(front, groups) + Layout(last, groups);
    AllOpenBefore(p, last);
    if !AtMostOneFilled(front) {
      k, e := CopyInTheWay(front, groups);
    } else {
      LaidAsOne(front, groups);
      BothFilled(ps, groups);
      FirstCopy(p, groups);
      k, e := |p|, p[0];
    }
  }

  lemma AllOpenBefore(a: seq<Entry>, b: seq<Entry>)
    requires AllOpen(a + b)
    ensures AllOpen(a)
  {
    assert forall k :: 0 <= k < |a| ==> (a + b)[k] == a[k];
  }

  lemma GroupsDiffer(e: Entry, f: Entry, groups: Groups)
    requires |groups| > 1
    ensures InGroup(e, groups, 1) != InGroup(f, groups, 0)
  {
    var a, b := InGroup(e, groups, 1).name, InGroup(f, groups, 0).name;
    assert Itoa(1) == "1" by {
      assert Canonical(0) == "";
    }
    assert a[|a| - 1] == '1' && b[|b| - 1] == '0';
  }

  /** It fits exactly when there is one group, or no object came with its clusters given and at most
  one of the projects has objects. */
  lemma LayoutFitsIff(ps: Projects, groups: Groups, m: nat)
    requires |groups| == m + 1
    ensures Fits(ps, groups, m) <==> Orderly(ps, m)
  {
    QuotientIsCountIff(ps, groups, m);
    if Orderly(ps, m) {
      forall k, i | 0 <= k < |Originals(ps)| && 0 <= i <= m ensures FoundAt(ps, groups, m, k, i) {
        IndexFindsObject(ps, groups, m, k, i);
      }
    } else if AllOpen(Originals(ps)) {
      var k, e := CopyInTheWay(ps, groups);
      GroupsDiffer(e, Originals(ps)[k], groups);
      assert !FoundAt(ps, groups, m, k, 0);
    }
  }

  lemma OneProject(entries: seq<Entry>)
    ensures Originals([entries]) == entries
  {
    assert [entries][..|[entries]| - 1] == [];
    assert Flatten([entries]) == Flatten([]) + entries;
  }

  /** With two groups, an object that came with its clusters given is found where the copy of another
  for the second group is looked for. */
  lemma GivenObjectMistaken()
    ensures
      var open, given := Entry("a", "", "", None), Entry("b", "", "", Some(["y"]));
      var ps, groups := [[open, given]], [["x"], ["y"]];
      && |Laid(ps, groups)| == 3 && 3 / |groups| == 1
      && Laid(ps, groups)[Index(1, 1, 0, 1)] == given != LaidFor(open, groups, 1)
      && !Fits(ps, groups, 1)
  {
    var open, given := Entry("a", "", "", None), Entry("b", "", "", Some(["y"]));
    var ps, groups := [[open, given]], [["x"], ["y"]];
    LaidAsOne(ps, groups);
    OneProject([open, given]);
    AllCopiesSize([open, given], groups, 1);
    assert Open([open, given]) == 1 by {
      assert [open, given][..1] == [open] && [open][..0] == [];
      assert Open([open]) == 1;
    }
    LayoutFitsIff(ps, groups, 1);
  }

  /** With two groups and two projects, a copy of the first project's object is found where the second
  project's object is looked for. */
  lemma TwoProjectsMistaken()
    ensures
      var first, second := Entry("a", "", "", None), Entry("b", "", "", None);
      var ps, groups := [[first], [second]], [["x"], ["y"]];
      && |Laid(ps, groups)| == 4 && 4 / |groups| == 2 && Originals(ps) == [first, second]
      && Laid(ps, groups)[Index(2, 1, 1, 0)] == InGroup(first, groups, 1) != LaidFor(second, groups, 0)
      && !Fits(ps, groups, 1)
  {
    var first, second := Entry("a", "", "", None), Entry("b", "", "", None);
    var ps, groups := [[first], [second]], [["x"], ["y"]];
    TwoLaid(first, second, groups);
    GroupsDiffer(first, second, groups);
    LayoutFitsIff(ps, groups, 1);
    assert ps[0] != [] && ps[1] != [];
  }

  lemma TwoLaid(e: Entry, f: Entry, groups: Groups)
    requires |groups| == 2 && e.clusters.None? && f.clusters.None?
    ensures Originals([[e], [f]]) == [e, f]
    ensures Laid([[e], [f]], groups) ==
      [InGroup(e, groups, 0), InGroup(e, groups, 1), InGroup(f, groups, 0), InGroup(f, groups, 1)]
  {
    OneOpen(e, groups);
    OneOpen(f, groups);
    OneProject([e]);
    assert [[e], [f]][..1] == [[e]];
    LaidAsOne([[e]], groups);
    assert Laid([[e], [f]], groups) == Laid([[e]], groups) + Layout([f], groups);
  }

  lemma OneOpen(e: Entry, groups: Groups)
    requires |groups| == 2 && e.clusters.None?
    ensures Layout([e], groups) == [InGroup(e, groups, 0), InGroup(e, groups, 1)]
  {
    assert [e][..0] == [];
    assert Open([e]) == 1;
    AllCopiesSize([e], groups, 1);
    CopyFound([e], groups, 1, 0, 1);
  }

  lemma QuotientIff(size: nat, n: nat, open: nat, m: nat)
    requires open <= n && size == n + open * m
    ensures size / (m + 1) == n <==> m == 0 || open == n
  {
    if open == n {
      TimesNext(n, m);
      DivideExact(n, m + 1);
    } else if m == 0 {
      assert open * m == 0;
    } else {
      FewerTimes(open, n, m);
      DivideBelow(size, m + 1, n);
    }
  }

  lemma TimesNext(n: int, m: int)
    ensures n + n * m == n * (m + 1)
  {
  }

  lemma FewerTimes(x: nat, n: nat, m: nat)
    requires x < n && m > 0
    ensures n + x * m < n * (m + 1)
  {
    assert (x + 1) * m <= n * m;
    TimesNext(n, m);
  }

  lemma DivideExact(n: nat, d: nat)
    requires d > 0
    ensures n * d / d == n
  {
    var q, r := n * d / d, n * d % d;
    assert (n - q) * d == r;
    SmallMultiple(d, n - q);
  }

  lemma DivideBelow(x: nat, d: nat, n: nat)
    requires d > 0 && x < n * d
    ensures x / d < n
  {
    TimesBelow(x / d, n, d);
  }

  // ---- the duplication, in place ----

  class YamlPrjObj {
    var name: string
    const info: string
    const except: string
    var clusters: Option<seq<string>>

    constructor (name: string, info: string, except: string)
      ensures this.name == name && this.info == info && this.except == except && clusters == None
    {
      this.name, this.info, this.except, clusters := name, info, except, None;
    }

    constructor Parse(e: Entry)
      ensures Contents() == e
    {
      name, info, except, clusters := e.name, e.info, e.except, e.clusters;
    }

    ghost function Contents(): Entry
      reads this
    {
      Entry(name, info, except, clusters)
    }

    /** The addresses of a group that are not excepted. */
    method AddClusters(group: seq<string>, excepts: seq<string>)
      requires clusters == None
      modifies this`clusters
      ensures clusters == ClustersFor(group, excepts)
    {
      for i := 0 to |group|
        invariant clusters == ClustersFor(group[..i], excepts)
      {
        RemainingNext(group, excepts, i);
        assert [] + [group[i]] == [group[i]];
        if group[i] !in excepts {
          clusters := match clusters
            case None => Some([group[i]])
            case Some(addresses) => Some(addresses + [group[i]]);
        }
      }
      assert group[..|group|] == group;
    }

    /** An original becomes the object of the first group. */
    method JoinFirst(groups: Groups, excepts: seq<string>)
      requires groups != [] && clusters == None && excepts == ExceptOf(Contents())
      modifies this
      ensures Contents() == InGroup(old(Contents()), groups, 0)
    {
      name := name + "-0";
      AddClusters(groups[0], excepts);
    }
  }

  ghost function Contents(objects: seq<YamlPrjObj>): (entries: seq<Entry>)
    reads objects
    ensures |entries| == |objects|
    ensures forall i :: 0 <= i < |entries| ==> entries[i] == objects[i].Contents()
  {
    seq(|objects|, i requires 0 <= i < |objects| reads objects => objects[i].Contents())
  }

  method CopyFor(obj: YamlPrjObj, groups: Groups, i: nat, excepts: seq<string>) returns (copy: YamlPrjObj)
    requires i < |groups| && excepts == ExceptOf(obj.Contents())
    ensures fresh(copy) && copy.Contents() == InGroup(obj.Contents(), groups, i)
  {
    copy := new YamlPrjObj(obj.name + "-" + Itoa(i), obj.info, obj.except);
    copy.AddClusters(groups[i], excepts);
  }

  /** The copies of an object for the groups after the first. */
  method CopiesFor(obj: YamlPrjObj, groups: Groups) returns (copies: seq<YamlPrjObj>)
    requires groups != [] && (forall i :: 0 <= i < |groups| ==> groups[i] != []) && obj.clusters == None
    ensures fresh(copies) && NoDuplicates(copies) && Contents(copies) == Copies(obj.Contents(), groups, |groups|)
  {
    copies := [];
    var excepts := Split(TrimSpace(obj.except), ',');
    for i := 1 to |groups|
      invariant |copies| == i - 1 && fresh(copies) && NoDuplicates(copies)
      invariant forall j :: 1 <= j < i ==> copies[j - 1].Contents() == InGroup(obj.Contents(), groups, j)
    {
      if |groups[i]| == 0 {
        continue;
      }
      var copy := CopyFor(obj, groups, i, excepts);
      copies := copies + [copy];
    }
  }

  /** The originals, and the groups they are laid out for. */
  datatype Plan = Plan(entries: seq<Entry>, groups: Groups) {
    ghost predicate Valid() {
      groups != [] && forall i :: 0 <= i < |groups| ==> groups[i] != []
    }
  }

  /** While objects are laid out: the first k are done, the others of the originals are as they were,
  and the copies made so far follow. */
  ghost predicate LaidOut(objects: seq<YamlPrjObj>, plan: Plan, k: nat)
    requires plan.Valid()
    reads objects
  {
    match plan
    case Plan(entries, groups) =>
      && k <= |entries| <= |objects| && NoDuplicates(objects)
      && (forall i :: 0 <= i < k ==> objects[i].Contents() == Kept(entries[i], groups))
      && (forall i :: k <= i < |entries| ==> objects[i].Contents() == entries[i])
      && Contents(objects[|entries|..]) == AllCopies(entries[..k], groups)
  }

  lemma AllCopiesNext(entries: seq<Entry>, groups: Groups, k: nat)
    requires groups != [] && k < |entries|
    ensures AllCopies(entries[..k + 1], groups) ==
      AllCopies(entries[..k], groups) + Copies(entries[k], groups, |groups|)
  {
    assert Blocks(entries[..k + 1], groups)[..k] == Blocks(entries[..k], groups);
  }

  lemma LaidOutAll(objects: seq<YamlPrjObj>, plan: Plan)
    requires plan.Valid() && LaidOut(objects, plan, |plan.entries|)
    ensures Contents(objects) == Layout(plan.entries, plan.groups)
  {
    var entries, groups := plan.entries, plan.groups;
    assert entries[..|entries|] == entries;
    var n := |entries|;
    forall i | 0 <= i < |objects| ensures Contents(objects)[i] == Layout(entries, groups)[i] {
      if i >= n {
        assert Contents(objects[n..])[i - n] == objects[i].Contents();
      }
    }
    assert |Contents(objects[n..])| == |objects| - n;
  }

  /** An object whose clusters are given is done. */
  lemma SkipGiven(objects: seq<YamlPrjObj>, plan: Plan, k: nat)
    requires plan.Valid() && LaidOut(objects, plan, k) && k < |plan.entries| && objects[k].clusters.Some?
    ensures LaidOut(objects, plan, k + 1)
  {
    AllCopiesNext(plan.entries, plan.groups, k);
  }

  /** The objects of a project, laid out if there is a configured address. */
  function Arranged(entries: seq<Entry>, connect: string): seq<Entry> {
    if TrimSpace(connect) == "" then entries else Layout(entries, GroupsOf(connect))
  }

  class ObjectSet {
    var objects: seq<YamlPrjObj>

    constructor (objects: seq<YamlPrjObj>)
      ensures this.objects == objects
    {
      this.objects := objects;
    }

    /** The copies go to the end. */
    method AppendObject(ind: nat, groups: Groups) returns (ghost copies: seq<YamlPrjObj>)
      requires ind < |objects| && objects[ind].clusters == None && NoDuplicates(objects)
      requires groups != [] && forall i :: 0 <= i < |groups| ==> groups[i] != []
      modifies this
      ensures objects == old(objects) + copies && fresh(copies) && NoDuplicates(objects)
      ensures Contents(copies) == Copies(old(objects[ind].Contents()), groups, |groups|)
    {
      var made := CopiesFor(objects[ind], groups);
      objects := objects + made;
      copies := made;
    }

    /** The copies of an object, made before it is renamed, and its own addresses. */
    method WriteObject(ind: nat, groups: Groups) returns (ghost copies: seq<YamlPrjObj>)
      requires ind < |objects| && objects[ind].clusters == None && NoDuplicates(objects)
      requires groups != [] && forall i :: 0 <= i < |groups| ==> groups[i] != []
      modifies this, objects[ind]
      ensures objects == old(objects) + copies && fresh(copies) && NoDuplicates(objects)
      ensures Contents(copies) == Copies(old(objects[ind].Contents()), groups, |groups|)
      ensures objects[ind].Contents() == InGroup(old(objects[ind].Contents()), groups, 0)
    {
      var obj := objects[ind];
      var excepts := Split(TrimSpace(obj.except), ',');
      copies := [];
      if |groups| > 1 {
        copies := AppendObject(ind, groups);
      }
      obj.JoinFirst(groups, excepts);
    }

    /** Without a configured address nothing happens; else every object whose clusters are not given
    becomes one object per address group. */
    method CheckObjectDuplicate(connect: string) returns (ghost added: seq<YamlPrjObj>)
      requires NoDuplicates(objects)
      modifies this, objects
      ensures objects == old(objects) + added && fresh(added)
      ensures Contents(objects) == Arranged(old(Contents(objects)), connect)
    {
      added := [];
      if TrimSpace(connect) == "" {
        return;
      }
      var groups := GroupsOf(connect);
      var objLen := |objects|;
      ghost var originals, plan := objects, Plan(Contents(objects), groups);
      assert originals[objLen..] == [];
      ghost var made: seq<YamlPrjObj> := [];
      for ind := 0 to objLen
        invariant LaidOut(objects, plan, ind) && objects == originals + made && fresh(made)
      {
        ghost var copies := LayOutObject(ind, groups, plan);
        Associative(originals, made, copies);
        made := made + copies;
      }
      LaidOutAll(objects, plan);
      added := made;
    }

    /** One object; it is left alone if its clusters are given. */
    method LayOutObject(ind: nat, groups: Groups, ghost plan: Plan) returns (ghost copies: seq<YamlPrjObj>)
      requires plan.Valid() && ind < |plan.entries| && plan.groups == groups
      requires LaidOut(objects, plan, ind)
      modifies this, objects[ind]
      ensures LaidOut(objects, plan, ind + 1) && objects == old(objects) + copies && fresh(copies)
    {
      copies := [];
      if objects[ind].clusters != None {
        SkipGiven(objects, plan, ind);
        return;
      }
      ghost var before := objects;
      copies := WriteObject(ind, groups);
      LaidOutNext(before, copies, plan, ind);
    }
  }

  /** The layout after an original is renamed and its copies are appended. */
  lemma LaidOutNext(before: seq<YamlPrjObj>, copies: seq<YamlPrjObj>, plan: Plan, k: nat)
    requires plan.Valid() && k < |plan.entries| <= |before| && NoDuplicates(before + copies)
    requires forall i :: 0 <= i < k ==> before[i].Contents() == Kept(plan.entries[i], plan.groups)
    requires forall i :: k < i < |plan.entries| ==> before[i].Contents() == plan.entries[i]
    requires plan.entries[k].clusters == None && before[k].Contents() == InGroup(plan.entries[k], plan.groups, 0)
    requires Contents(before[|plan.entries|..]) == AllCopies(plan.entries[..k], plan.groups)
    requires Contents(copies) == Copies(plan.entries[k], plan.groups, |plan.groups|)
    ensures LaidOut(before + copies, plan, k + 1)
  {
    CopiesBehind(before, copies, plan, k);
  }

  lemma CopiesBehind(before: seq<YamlPrjObj>, copies: seq<YamlPrjObj>, plan: Plan, k: nat)
    requires plan.Valid() && k < |plan.entries| <= |before|
    requires Contents(before[|plan.entries|..]) == AllCopies(plan.entries[..k], plan.groups)
    requires Contents(copies) == Copies(plan.entries[k], plan.groups, |plan.groups|)
    ensures Contents((before + copies)[|plan.entries|..]) == AllCopies(plan.entries[..k + 1], plan.groups)
  {
    var n := |plan.entries|;
    AllCopiesNext(plan.entries, plan.groups, k);
    assert (before + copies)[n..] == before[n..] + copies;
    ContentsConcat(before[n..], copies);
  }

  lemma ContentsConcat(a: seq<YamlPrjObj>, b: seq<YamlPrjObj>)
    ensures Contents(a + b) == Contents(a) + Contents(b)
  {
  }

  // ---- the requested projects ----

  /** A project as its file gives it. */
  datatype ProjectFile = ProjectFile(project: string, start: string, stop: string, objects: seq<Entry>)

  function Requested(data: string): seq<string> {
    var parts := Split(data, ',');
    seq(|parts|, i requires 0 <= i < |parts| => TrimSpace(parts[i]))
  }

  predicate AllParse(files: seq<Option<ProjectFile>>) {
    forall i :: 0 <= i < |files| ==> files[i].Some?
  }

  function Parsed(files: seq<Option<ProjectFile>>): (parsed: seq<ProjectFile>)
    requires AllParse(files)
    ensures |parsed| == |files| && forall i :: 0 <= i < |files| ==> parsed[i] == files[i].value
  {
    seq(|files|, i requires 0 <= i < |files| => files[i].value)
  }

  /** The requested projects, in the order of the files. */
  function Chosen(files: seq<ProjectFile>, names: seq<string>): Projects {
    if files == [] then []
    else
      var last := files[|files| - 1];
      Chosen(files[..|files| - 1], names) + (if last.project in names then [last.objects] else [])
  }

  function FirstChosen(files: seq<ProjectFile>, names: seq<string>): Option<ProjectFile> {
    if files == [] then None
    else
      var front, last := FirstChosen(files[..|files| - 1], names), files[|files| - 1];
      if front == None && last.project in names then Some(last) else front
  }

  /** The names are those between the commas, without the white space around them. */
  lemma NamesAreRead(names: seq<string>, before: seq<string>, after: seq<string>)
    requires names != [] && |before| == |names| == |after| && EachIn(before, SPACES) && EachIn(after, SPACES)
    requires Without(names, ',') && forall i :: 0 <= i < |names| ==> Trimmed(names[i], SPACES)
    ensures Requested(Joined(Padded(names, before, after), ',')) == names
  {
    PaddedWithout(names, before, after, SPACES, ',');
    SplitJoined(Padded(names, before, after), ',');
    forall i | 0 <= i < |names| ensures TrimSpace(Padded(names, before, after)[i]) == names[i] {
      TrimIs(before[i], names[i], after[i], SPACES);
    }
  }

  /** Exactly the projects requested are chosen, in the order of the files. */
  lemma {:induction false} ChosenKeeps(head: seq<ProjectFile>, file: ProjectFile, tail: seq<ProjectFile>,
                                       names: seq<string>)
    ensures Chosen(head + [file] + tail, names) ==
      Chosen(head, names) + (if file.project in names then [file.objects] else []) + Chosen(tail, names)
    decreases |tail|
  {
    var all := head + [file] + tail;
    if tail == [] {
      assert all[..|all| - 1] == head;
    } else {
      ChosenKeeps(head, file, tail[..|tail| - 1], names);
      assert all[..|all| - 1] == head + [file] + tail[..|tail| - 1];
    }
  }

  lemma {:induction false} FirstChosenIsFirst(files: seq<ProjectFile>, names: seq<string>)
    ensures match FirstChosen(files, names)
      case None => forall i :: 0 <= i < |files| ==> files[i].project !in names
      case Some(file) =>
        file.project in names
        && exists i :: 0 <= i < |files| && files[i] == file && forall j :: 0 <= j < i ==> files[j].project !in names
  {
    if files != [] {
      var n := |files| - 1;
      var front := files[..n];
      FirstChosenIsFirst(front, names);
      assert forall i :: 0 <= i < n ==> front[i] == files[i];
      match FirstChosen(front, names)
      case None =>
      case Some(file) =>
        var i :| 0 <= i < n && front[i] == file && forall j :: 0 <= j < i ==> front[j].project !in names;
        assert files[i] == file;
    }
  }

  /** The objects of several projects, each of them arranged by itself. */
  function ArrangedAll(ps: Projects, connect: string): seq<Entry> {
    if TrimSpace(connect) == "" then Originals(ps) else Laid(ps, GroupsOf(connect))
  }

  lemma {:induction false} FirstOfJoined(texts: seq<string>, separator: char, c: char)
    requires texts != [] && c in texts[0]
    ensures c in Joined(texts, separator)
  {
    if |texts| > 1 {
      FirstOfJoined(texts[..|texts| - 1], separator, c);
    }
  }

  /** If nothing but white space is configured the objects stay as they are; if groups are, every project
  is laid out over these. */
  lemma ConfiguredLayout(ps: Projects, blank: string, groups: Groups, before: seq<string>, after: seq<string>)
    requires AllIn(blank, SPACES)
    requires groups != [] && |before| == |groups| == |after| && EachIn(before, SPACES) && EachIn(after, SPACES)
    requires AllPlain(groups) && groups[0][0] != ""
    ensures ArrangedAll(ps, blank) == Originals(ps)
    ensures ArrangedAll(ps, Joined(Padded(GroupTexts(groups), before, after), '-')) == Laid(ps, groups)
  {
    var padded := Padded(GroupTexts(groups), before, after);
    var connect, c := Joined(padded, '-'), groups[0][0][0];
    TrimIs(blank, "", "", SPACES);
    assert blank + "" + "" == blank;
    GroupsAreRead(groups, before, after);
    FirstOfJoined(groups[0], ',', c);
    FirstOfJoined(padded, '-', c);
    var a, b := TrimMiddle(connect, SPACES);
    assert c in connect && c !in a && c !in b;
  }

  ghost predicate Disjoint(a: seq<YamlPrjObj>, b: seq<YamlPrjObj>) {
    forall i :: 0 <= i < |a| ==> a[i] !in b
  }

  class YamlPrjSvr {
    const project: string
    const start: string
    const stop: string
    var objects: seq<YamlPrjObj>

    constructor (file: ProjectFile)
      ensures project == file.project && start == file.start && stop == file.stop && fresh(objects)
      ensures NoDuplicates(objects) && Contents(objects) == file.objects
    {
      project, start, stop, objects := file.project, file.start, file.stop, [];
      new;
      for i := 0 to |file.objects|
        invariant |objects| == i && fresh(objects) && NoDuplicates(objects)
        invariant forall j :: 0 <= j < i ==> objects[j].Contents() == file.objects[j]
      {
        var obj := new YamlPrjObj.Parse(file.objects[i]);
        objects := objects + [obj];
      }
    }

    /** The objects replaced by their layout; those of other projects stay as they are. */
    method Arrange(connect: string, ghost others: seq<YamlPrjObj>) returns (ghost added: seq<YamlPrjObj>)
      requires NoDuplicates(objects) && Disjoint(others, objects)
      modifies this`objects, objects
      ensures objects == old(objects) + added && fresh(added)
      ensures Contents(objects) == Arranged(old(Contents(objects)), connect)
      ensures Contents(others) == old(Contents(others))
    {
      var objectSet := new ObjectSet(objects);
      ghost var shown, mine := Contents(others), objects;
      added := objectSet.CheckObjectDuplicate(connect);
      objects := objectSet.objects;
      forall i | 0 <= i < |others| ensures others[i].Contents() == shown[i] {
        assert others[i] !in mine;
      }
    }

    method MergeProject(prj: YamlPrjSvr)
      modifies this`objects
      ensures objects == old(objects + prj.objects)
      ensures Contents(objects) == old(Contents(objects) + Contents(prj.objects))
    {
      objects := objects + prj.objects;
    }
  }

  /** A loaded project has the objects `objs`, which show what its file gives. */
  ghost predicate LoadedFrom(prj: YamlPrjSvr, objs: seq<YamlPrjObj>, file: ProjectFile)
    reads prj, objs
  {
    && prj.project == file.project && prj.start == file.start && prj.stop == file.stop
    && prj.objects == objs && NoDuplicates(objs) && Contents(objs) == file.objects
  }

  lemma DisjointConcat(a: seq<YamlPrjObj>, b: seq<YamlPrjObj>, c: seq<YamlPrjObj>)
    requires Disjoint(a, c) && Disjoint(b, c)
    ensures Disjoint(a + b, c)
  {
  }

  ghost predicate Apart(objs: seq<seq<YamlPrjObj>>) {
    forall i, j :: 0 <= i < j < |objs| ==> Disjoint(objs[i], objs[j])
  }

  ghost predicate Within(objs: seq<seq<YamlPrjObj>>, region: set<YamlPrjObj>) {
    forall i, j :: 0 <= i < |objs| && 0 <= j < |objs[i]| ==> objs[i][j] in region
  }

  /** The files are parsed, up to the first that cannot be. */
  method LoadProjects(files: seq<Option<ProjectFile>>)
    returns (prjs: Option<seq<YamlPrjSvr>>, ghost objs: seq<seq<YamlPrjObj>>, ghost region: set<YamlPrjObj>)
    ensures prjs.Some? <==> AllParse(files)
    ensures prjs.Some? ==>
      && |prjs.value| == |objs| == |files| && fresh(prjs.value) && NoDuplicates(prjs.value)
      && fresh(region) && Within(objs, region) && Apart(objs)
      && forall i :: 0 <= i < |files| ==> LoadedFrom(prjs.value[i], objs[i], files[i].value)
  {
    var loaded: seq<YamlPrjSvr> := [];
    objs, region := [], {};
    for i := 0 to |files|
      invariant |loaded| == |objs| == i && AllParse(files[..i]) && fresh(loaded) && NoDuplicates(loaded)
      invariant fresh(region) && Within(objs, region) && Apart(objs)
      invariant forall j :: 0 <= j < i ==> LoadedFrom(loaded[j], objs[j], files[j].value)
    {
      if files[i].None? {
        return None, objs, region;
      }
      var prj := new YamlPrjSvr(files[i].value);
      loaded, objs, region := loaded + [prj], objs + [prj.objects], region + set o | o in prj.objects;
    }
    prjs := Some(loaded);
  }

  datatype Answer = ProjectsFound | FileNotParsed | NoProjectFound

  class Optimizer {
    var prj: YamlPrjSvr?

    ghost function Held(): seq<YamlPrjObj>
      reads this, prj
    {
      if prj == null then [] else prj.objects
    }

    ghost function HeldContents(): seq<Entry>
      reads this, prj, Held()
    {
      Contents(Held())
    }

    /** A requested project is arranged; the first becomes the project to tune, others are merged. */
    method TakeProject(next: YamlPrjSvr, connect: string) returns (ghost added: seq<YamlPrjObj>)
      requires next != prj && NoDuplicates(next.objects)
      requires Disjoint(Held(), next.objects)
      modifies this, prj, next, next.objects
      ensures prj == if old(prj) == null then next else old(prj)
      ensures Held() == old(Held() + next.objects) + added && fresh(added)
      ensures HeldContents() == old(HeldContents()) + Arranged(old(Contents(next.objects)), connect)
    {
      ghost var held, objects := Held(), next.objects;
      added := next.Arrange(connect, held);
      Associative(held, objects, added);
      if prj == null {
        prj := next;
      } else {
        prj.MergeProject(next);
      }
    }

    /** The projects from the i-th on are as they were loaded, and share nothing with the project to tune. */
    ghost predicate Waiting(prjs: seq<YamlPrjSvr>, objs: seq<seq<YamlPrjObj>>, files: seq<ProjectFile>, i: nat)
      reads this, prj, prjs, set j, k | 0 <= j < |objs| && 0 <= k < |objs[j]| :: objs[j][k]
    {
      && |prjs| == |objs| == |files|
      && forall j :: i <= j < |objs| ==>
        LoadedFrom(prjs[j], objs[j], files[j]) && prjs[j] != prj && Disjoint(Held(), objs[j])
    }

    /** A project that is not requested is left out. */
    method TakeRequested(prjs: seq<YamlPrjSvr>, ghost objs: seq<seq<YamlPrjObj>>, ghost files: seq<ProjectFile>,
                         i: nat, names: seq<string>, connect: string)
      requires Waiting(prjs, objs, files, i) && i < |prjs| && NoDuplicates(prjs) && Apart(objs)
      modifies this, prj, prjs[i], objs[i]
      ensures Waiting(prjs, objs, files, i + 1)
      ensures prj == if old(prj) == null && files[i].project in names then prjs[i] else old(prj)
      ensures var file := files[i];
        prjs[i].project == file.project && prjs[i].start == file.start && prjs[i].stop == file.stop
      ensures HeldContents() ==
        old(HeldContents()) + if files[i].project in names then Arranged(files[i].objects, connect) else []
    {
      if prjs[i].project !in names {
        return;
      }
      ghost var held := Held();
      ghost var added := TakeProject(prjs[i], connect);
      forall j | i < j < |objs|
        ensures Contents(objs[j]) == files[j].objects && prjs[j].objects == objs[j] && Disjoint(Held(), objs[j])
      {
        DisjointConcat(held, objs[i], objs[j]);
        DisjointConcat(held + objs[i], added, objs[j]);
        forall k | 0 <= k < |objs[j]| ensures objs[j][k].Contents() == files[j].objects[k] {
          assert Disjoint(objs[i], objs[j]);
          assert objs[j][k] !in objs[i];
        }
      }
    }

    /** A project that was there stays; else the first one requested becomes the project to tune. */
    ghost predicate Keeps(before: YamlPrjSvr?, first: Option<ProjectFile>)
      reads this
    {
      if before != null then prj == before
      else match first
        case None => prj == null
        case Some(file) =>
          prj != null && prj.project == file.project && prj.start == file.start && prj.stop == file.stop
    }

    /** The first i projects are dealt with. */
    ghost predicate Taken(origin: YamlPrjSvr?, before: seq<Entry>, files: seq<ProjectFile>, names: seq<string>,
                          connect: string, i: nat)
      reads this, prj, Held()
    {
      && i <= |files|
      && HeldContents() == before + ArrangedAll(Chosen(files[..i], names), connect)
      && Keeps(origin, FirstChosen(files[..i], names))
    }

    method TakeNext(prjs: seq<YamlPrjSvr>, ghost objs: seq<seq<YamlPrjObj>>, ghost files: seq<ProjectFile>, i: nat,
                    names: seq<string>, connect: string, ghost origin: YamlPrjSvr?, ghost before: seq<Entry>)
      requires Waiting(prjs, objs, files, i) && i < |prjs| && NoDuplicates(prjs) && Apart(objs)
      requires Taken(origin, before, files, names, connect, i)
      modifies this, prj, prjs[i], objs[i]
      ensures Waiting(prjs, objs, files, i + 1) && Taken(origin, before, files, names, connect, i + 1)
      ensures prj == old(prj) || prj == prjs[i]
    {
      TakeRequested(prjs, objs, files, i, names, connect);
      ChosenNext(files, names, i, connect);
      Associative(before, ArrangedAll(Chosen(files[..i], names), connect),
                  if files[i].project in names then Arranged(files[i].objects, connect) else []);
    }

    method TakeProjects(prjs: seq<YamlPrjSvr>, ghost objs: seq<seq<YamlPrjObj>>, ghost files: seq<ProjectFile>,
                        ghost region: set<YamlPrjObj>, names: seq<string>, connect: string)
      requires Waiting(prjs, objs, files, 0) && NoDuplicates(prjs) && Apart(objs) && Within(objs, region)
      modifies this, prj, prjs, region
      ensures HeldContents() == old(HeldContents()) + ArrangedAll(Chosen(files, names), connect)
      ensures Keeps(old(prj), FirstChosen(files, names))
    {
      ghost var origin, before := prj, HeldContents();
      for i := 0 to |prjs|
        invariant prj == origin || prj in prjs
        invariant Waiting(prjs, objs, files, i) && Taken(origin, before, files, names, connect, i)
      {
        TakeNext(prjs, objs, files, i, names, connect, origin, before);
      }
      assert files[..|files|] == files;
    }

    /** The requested projects are added to the project to tune, in the order of the files and each of
    them arranged by itself. */
    method CheckServerPrj(data: string, files: seq<Option<ProjectFile>>, connect: string) returns (answer: Answer)
      modifies this, prj
      ensures !AllParse(files) ==>
        answer == FileNotParsed && prj == old(prj) && Held() == old(Held()) && HeldContents() == old(HeldContents())
      ensures AllParse(files) ==>
        var parsed, names := Parsed(files), Requested(data);
        && HeldContents() == old(HeldContents()) + ArrangedAll(Chosen(parsed, names), connect)
        && Keeps(old(prj), FirstChosen(parsed, names))
        && answer == if prj == null then NoProjectFound else ProjectsFound
    {
      var prjs;
      ghost var objs, region;
      prjs, objs, region := LoadProjects(files);
      if prjs == None {
        return FileNotParsed;
      }
      TakeProjects(prjs.value, objs, Parsed(files), region, Requested(data), connect);
      answer := if prj == null then NoProjectFound else ProjectsFound;
    }
  }

  lemma ChosenNext(files: seq<ProjectFile>, names: seq<string>, i: nat, connect: string)
    requires i < |files|
    ensures Chosen(files[..i + 1], names) ==
      Chosen(files[..i], names) + if files[i].project in names then [files[i].objects] else []
    ensures ArrangedAll(Chosen(files[..i + 1], names), connect) ==
      ArrangedAll(Chosen(files[..i], names), connect)
      + if files[i].project in names then Arranged(files[i].objects, connect) else []
    ensures FirstChosen(files[..i + 1], names) ==
      var first := FirstChosen(files[..i], names);
      if first == None && files[i].project in names then Some(files[i]) else first
  {
    assert files[..i + 1][..i] == files[..i];
    if files[i].project in names {
      ArrangedNext(Chosen(files[..i], names), files[i].objects, connect);
    } else {
      assert Chosen(files[..i + 1], names) == Chosen(files[..i], names);
    }
  }

  lemma ArrangedNext(ps: Projects, p: seq<Entry>, connect: string)
    ensures ArrangedAll(ps + [p], connect) == ArrangedAll(ps, connect) + Arranged(p, connect)
  {
    assert (ps + [p])[..|ps|] == ps;
  }

  // ---- the scripts ----

  /** RunSet collects the scripts of the objects in turn; an object that is skipped or not active has
  none. */
  function Collected(scripts: seq<Option<string>>): (collected: seq<string>)
    ensures |collected| <= |scripts|
  {
    if scripts == [] then []
    else
      var last := scripts[|scripts| - 1];
      Collected(scripts[..|scripts| - 1]) + (if last.Some? then [last.value] else [])
  }

  /** The objects that the collected scripts come from. */
  function Places(scripts: seq<Option<string>>): (places: seq<nat>)
    ensures |places| == |Collected(scripts)|
    ensures forall j :: 0 <= j < |places| ==>
      places[j] < |scripts| && scripts[places[j]] == Some(Collected(scripts)[j])
  {
    if scripts == [] then []
    else
      var n := |scripts| - 1;
      Places(scripts[..n]) + (if scripts[n].Some? then [n] else [])
  }

  ghost predicate AllHave(scripts: seq<Option<string>>) {
    forall j :: 0 <= j < |scripts| ==> scripts[j].Some?
  }

  /** An object without a script is behind all that have one. */
  ghost predicate NoGap(scripts: seq<Option<string>>) {
    forall k :: 0 <= k < |scripts| && scripts[k].Some? ==> AllHave(scripts[..k])
  }

  ghost predicate InPlace(places: seq<nat>) {
    forall j :: 0 <= j < |places| ==> places[j] == j
  }

  lemma InPlaceNext(places: seq<nat>, n: nat)
    ensures InPlace(places + [n]) <==> InPlace(places) && |places| == n
  {
    assert (places + [n])[|places|] == n;
    assert forall j :: 0 <= j < |places| ==> (places + [n])[j] == places[j];
  }

  lemma InPlaceWith(scripts: seq<Option<string>>, last: Option<string>)
    ensures InPlace(Places(scripts + [last])) <==>
      InPlace(Places(scripts)) && (last.Some? ==> |Places(scripts)| == |scripts|)
  {
    var all := scripts + [last];
    assert all[..|scripts|] == scripts;
    assert Places(all) == if last.Some? then Places(scripts) + [|scripts|] else Places(scripts);
    InPlaceNext(Places(scripts), |scripts|);
  }

  lemma NoGapNext(scripts: seq<Option<string>>, last: Option<string>)
    ensures NoGap(scripts + [last]) <==> NoGap(scripts) && (last.Some? ==> AllHave(scripts))
  {
    var all := scripts + [last];
    assert all[..|scripts|] == scripts && all[|scripts|] == last;
    assert forall k :: 0 <= k < |scripts| ==> all[k] == scripts[k] && all[..k] == scripts[..k];
  }

  /** Scripts and objects are indexed alike, so every script is taken for its own object exactly if no
  object without a script is before one that has one. */
  lemma {:induction false} InPlaceIff(scripts: seq<Option<string>>)
    ensures InPlace(Places(scripts)) <==> NoGap(scripts)
  {
    if scripts != [] {
      var front, last := scripts[..|scripts| - 1], scripts[|scripts| - 1];
      InPlaceIff(front);
      AllCollectedIff(front);
      NoGapNext(front, last);
      InPlaceWith(front, last);
      assert scripts == front + [last];
    }
  }

  lemma {:induction false} AllCollectedIff(scripts: seq<Option<string>>)
    ensures |Places(scripts)| == |scripts| <==> AllHave(scripts)
  {
    if scripts != [] {
      var front := scripts[..|scripts| - 1];
      AllCollectedIff(front);
      assert AllHave(scripts) <==> AllHave(front) && scripts[|front|].Some?;
    }
  }

  // ---- sending the scripts ----

  lemma IndexBound(n: nat, m: nat, k: nat, i: nat)
    requires k < n && i <= m
    ensures 0 <= Index(n, m, k, i) < n * (m + 1)
  {
    TimesNext(n, m);
    TimesBefore(k, n, m);
  }

  /** Every index is that of an original and a group. */
  lemma IndexCovers(n: nat, m: nat, j: nat) returns (k: nat, i: nat)
    requires m > 0 && j < n * (m + 1)
    ensures k < n && i <= m && Index(n, m, k, i) == j
  {
    TimesNext(n, m);
    if j < n {
      k, i := j, 0;
    } else {
      k, i := (j - n) / m, (j - n) % m + 1;
      DivideBelow(j - n, m, n);
    }
  }

  ghost predicate HasAt(scripts: seq<Option<string>>, has: seq<bool>, m: nat, k: nat, i: nat) {
    && k < |has| && 0 <= Index(|has|, m, k, i) < |scripts|
    && (scripts[Index(|has|, m, k, i)].Some? <==> has[k])
  }

  /** A copy of an original that has scripts is behind an original that has none. */
  lemma SkippedBefore(scripts: seq<Option<string>>, has: seq<bool>, m: nat, a: nat, b: nat)
    requires HasAt(scripts, has, m, a, 1) && HasAt(scripts, has, m, b, 0) && has[a] && !has[b]
    ensures !NoGap(scripts)
  {
    var copy := Index(|has|, m, a, 1);
    assert a * m >= 0;
    assert !AllHave(scripts[..copy]) by {
      assert scripts[..copy][b].None?;
    }
  }

  lemma AllAlike(scripts: seq<Option<string>>, has: seq<bool>, m: nat, alike: bool, j: nat)
    requires m > 0 && j < |scripts| == |has| * (m + 1) && !alike !in has
    requires forall k, i :: 0 <= k < |has| && 0 <= i <= m ==> HasAt(scripts, has, m, k, i)
    ensures scripts[j].Some? == alike
  {
    var k, i := IndexCovers(|has|, m, j);
    assert HasAt(scripts, has, m, k, i) && has[k] in has;
  }

  /** An object is skipped with all its copies. With several groups all scripts are therefore taken for
  their own objects exactly if no object is skipped, or all are. */
  lemma SkippedInPlaceIff(scripts: seq<Option<string>>, has: seq<bool>, m: nat)
    requires m > 0 && |scripts| == |has| * (m + 1)
    requires forall k, i :: 0 <= k < |has| && 0 <= i <= m ==> HasAt(scripts, has, m, k, i)
    ensures InPlace(Places(scripts)) <==> false !in has || true !in has
  {
    InPlaceIff(scripts);
    if false in has && true in has {
      var a, b :| 0 <= a < |has| && 0 <= b < |has| && has[a] && !has[b];
      SkippedBefore(scripts, has, m, a, b);
    } else {
      forall j | 0 <= j < |scripts| ensures scripts[j].Some? == (false !in has) {
        AllAlike(scripts, has, m, false !in has, j);
      }
    }
  }

  lemma IndexGrows(n: nat, m: nat, k: nat, l: nat, i: nat)
    requires k <= l
    ensures Index(n, m, k, i) <= Index(n, m, l, i)
  {
    assert (l - k) * m >= 0;
  }

  /** There is an object at every index of a message to group i. */
  predicate Reaches(size: nat, n: nat, m: nat, i: nat) {
    n == 0 || Index(n, m, n - 1, i) < size
  }

  /** That is so in every group exactly if there are objects for all scripts that are divided up. */
  lemma AllReachIff(size: nat, n: nat, m: nat)
    ensures (forall i: nat :: i <= m ==> Reaches(size, n, m, i)) <==> n * (m + 1) <= size
  {
    if n > 0 {
      LastIndex(n, m);
      if n * (m + 1) <= size {
        forall i: nat | i <= m ensures Reaches(size, n, m, i) {
          IndexBound(n, m, n - 1, i);
        }
      } else {
        assert !Reaches(size, n, m, m);
      }
    }
  }

  lemma LastIndex(n: nat, m: nat)
    requires n > 0
    ensures Index(n, m, n - 1, m) == n * (m + 1) - 1
  {
    TimesNext(n, m);
    NextTimes(n - 1, m);
  }

  /** The entry of a message for an original. */
  function EntryFor(entries: seq<Entry>, scripts: seq<string>, index: nat, address: string): string
    requires index < |entries| && index < |scripts|
  {
    if IsFor(entries[index], address) then scripts[index] else "no operation"
  }

  /** What is sent to an address of group i: for each of the n originals its script for the group, or
  "no operation". Without an object at an index the program panics. */
  function Message(entries: seq<Entry>, scripts: seq<string>, n: nat, m: nat, i: nat, address: string)
    : (message: Option<seq<string>>)
    requires n * (m + 1) <= |scripts| && i <= m
    ensures message.Some? ==> |message.value| == n
  {
    if Reaches(|entries|, n, m, i) then
      Some(seq(n, k requires 0 <= k < n =>
        IndexBound(n, m, k, i);
        IndexGrows(n, m, k, n - 1, i);
        EntryFor(entries, scripts, Index(n, m, k, i), address)))
    else None
  }

  type Sending = (string, Option<seq<string>>)

  /** The messages to the first j addresses of group i, except the node itself and empty addresses. */
  function GroupSends(entries: seq<Entry>, scripts: seq<string>, groups: Groups, own: string, n: nat, i: nat, j: nat)
    : seq<Sending>
    requires i < |groups| && j <= |groups[i]| && n * |groups| <= |scripts|
  {
    if j == 0 then []
    else
      var before, address := GroupSends(entries, scripts, groups, own, n, i, j - 1), groups[i][j - 1];
      if address == own || address == "" then before
      else before + [(address, Message(entries, scripts, n, |groups| - 1, i, address))]
  }

  /** The messages to the first g groups. */
  function Sends(entries: seq<Entry>, scripts: seq<string>, groups: Groups, own: string, n: nat, g: nat): seq<Sending>
    requires g <= |groups| && n * |groups| <= |scripts|
  {
    if g == 0 then []
    else
      Sends(entries, scripts, groups, own, n, g - 1)
      + GroupSends(entries, scripts, groups, own, n, g - 1, |groups[g - 1]|)
  }

  function Recipients(sends: seq<Sending>): (addresses: seq<string>)
    ensures |addresses| == |sends| && forall k :: 0 <= k < |sends| ==> addresses[k] == sends[k].0
  {
    seq(|sends|, k requires 0 <= k < |sends| => sends[k].0)
  }

  lemma {:induction false} GroupRecipients(entries: seq<Entry>, scripts: seq<string>, groups: Groups, own: string,
                                           n: nat, i: nat, j: nat)
    requires i < |groups| && j <= |groups[i]| && n * |groups| <= |scripts|
    ensures Recipients(GroupSends(entries, scripts, groups, own, n, i, j)) == Remaining(groups[i][..j], [own, ""])
  {
    if j > 0 {
      GroupRecipients(entries, scripts, groups, own, n, i, j - 1);
      RemainingNext(groups[i], [own, ""], j - 1);
    }
  }

  /** Every address of every group is sent one message, in the order of the configuration, except the
  server's own and empty ones. */
  lemma {:induction false} EveryNodeIsSent(entries: seq<Entry>, scripts: seq<string>, groups: Groups, own: string,
                                           n: nat, g: nat)
    requires g <= |groups| && n * |groups| <= |scripts|
    ensures Recipients(Sends(entries, scripts, groups, own, n, g)) == Remaining(Flatten(groups[..g]), [own, ""])
  {
    if g > 0 {
      var group := groups[g - 1];
      EveryNodeIsSent(entries, scripts, groups, own, n, g - 1);
      GroupRecipients(entries, scripts, groups, own, n, g - 1, |group|);
      RemainingConcat(Flatten(groups[..g - 1]), group, [own, ""]);
      assert groups[..g][..g - 1] == groups[..g - 1] && group[..|group|] == group;
    }
  }

  /** What an address is sent is the message for its group. */
  lemma {:induction false} SentIsMessage(entries: seq<Entry>, scripts: seq<string>, groups: Groups, own: string,
                                         n: nat, g: nat, sending: Sending)
    requires g <= |groups| && n * |groups| <= |scripts| && sending in Sends(entries, scripts, groups, own, n, g)
    ensures exists i :: 0 <= i < g && sending.0 in groups[i]
                        && sending.1 == Message(entries, scripts, n, |groups| - 1, i, sending.0)
  {
    if sending in GroupSends(entries, scripts, groups, own, n, g - 1, |groups[g - 1]|) {
      GroupSentIsMessage(entries, scripts, groups, own, n, g - 1, |groups[g - 1]|, sending);
    } else {
      SentIsMessage(entries, scripts, groups, own, n, g - 1, sending);
    }
  }

  lemma {:induction false} GroupSentIsMessage(entries: seq<Entry>, scripts: seq<string>, groups: Groups, own: string,
                                              n: nat, i: nat, j: nat, sending: Sending)
    requires i < |groups| && j <= |groups[i]| && n * |groups| <= |scripts|
    requires sending in GroupSends(entries, scripts, groups, own, n, i, j)
    ensures sending.0 in groups[i] && sending.1 == Message(entries, scripts, n, |groups| - 1, i, sending.0)
  {
    if sending in GroupSends(entries, scripts, groups, own, n, i, j - 1) {
      GroupSentIsMessage(entries, scripts, groups, own, n, i, j - 1, sending);
    }
  }

  /** Whether an original is for a node: it is in the clusters given, or not excepted. */
  predicate Wants(e: Entry, address: string) {
    match e.clusters
    case None => address !in ExceptOf(e)
    case Some(addresses) => address in addresses
  }

  /** With one script per object, n of them per group, and the objects where they are looked for, every
  remote node gets one entry per original: the script of the object laid out for that original and its
  own group, or "no operation" where the original is not for the node. */
  lemma NodeGetsItsScripts(ps: Projects, groups: Groups, scripts: seq<string>, n: nat, m: nat, i: nat,
                           address: string, k: nat)
    requires |groups| == m + 1 && Orderly(ps, m) && i <= m && address in groups[i]
    requires |scripts| == |Laid(ps, groups)| && n == |scripts| / (m + 1) && n * (m + 1) <= |scripts|
    requires k < |Originals(ps)|
    ensures n == |Originals(ps)| && 0 <= Index(n, m, k, i) < |scripts|
    ensures Laid(ps, groups)[Index(n, m, k, i)] == LaidFor(Originals(ps)[k], groups, i)
    ensures var message := Message(Laid(ps, groups), scripts, n, m, i, address);
      message.Some?
      && message.value[k] == if Wants(Originals(ps)[k], address) then scripts[Index(n, m, k, i)] else "no operation"
  {
    QuotientIsCountIff(ps, groups, m);
    IndexFindsObject(ps, groups, m, k, i);
    IndexBound(n, m, n - 1, i);
    ForWanted(Originals(ps)[k], groups, i, address);
  }

  lemma ForWanted(e: Entry, groups: Groups, i: nat, address: string)
    requires i < |groups| && address in groups[i] && (i > 0 ==> e.clusters.None?)
    ensures IsFor(LaidFor(e, groups, i), address) <==> Wants(e, address)
  {
    ClustersForMeans(groups[i], ExceptOf(e), address);
  }

  /** The two scripts of a restart are divided up like those of the objects: a node gets both exactly if
  there is one group and the node is one of those that the first two objects are for. */
  lemma BothRestartScriptsIff(entries: seq<Entry>, stop: string, start: string, m: nat, i: nat, address: string)
    requires stop != "no operation" && start != "no operation" && i <= m
    ensures 2 / (m + 1) * (m + 1) <= 2
    ensures Message(entries, [stop, start], 2 / (m + 1), m, i, address) == Some([stop, start]) <==>
      m == 0 && |entries| >= 2 && IsFor(entries[0], address) && IsFor(entries[1], address)
  {
    FloorTimes(2, m + 1);
    var message := Message(entries, [stop, start], 2 / (m + 1), m, i, address);
    if m > 0 {
      DivideBelow(2, m + 1, 2);
      assert message.Some? ==> |message.value| < 2;
    } else if message.Some? {
      assert message.value[0] == EntryFor(entries, [stop, start], 0, address);
      assert message.value[1] == EntryFor(entries, [stop, start], 1, address);
      assert message.value == [message.value[0], message.value[1]];
    }
  }

  /** It panics exactly if the objects are fewer than the scripts for the one group or up to the second
  of two; with more groups nothing is left to send. */
  lemma RestartPanicsIff(entries: seq<Entry>, stop: string, start: string, m: nat, i: nat, address: string)
    requires i <= m
    ensures 2 / (m + 1) * (m + 1) <= 2
    ensures Message(entries, [stop, start], 2 / (m + 1), m, i, address) == None <==>
      (m == 0 && |entries| < 2) || (m == 1 && |entries| <= i)
  {
    FloorTimes(2, m + 1);
    if m > 1 {
      DivideBelow(2, m + 1, 1);
    }
  }

  /** A node of the first group only, which the second project's object is for, gets "no operation". */
  lemma SecondProjectNotSent(first: Entry, second: Entry, groups: Groups, scripts: seq<string>, address: string)
    requires first.clusters.None? && second.clusters.None? && |groups| == 2 && |scripts| == 4
    requires address in groups[0] && address !in groups[1] && address !in ExceptOf(second)
    ensures Originals([[first], [second]]) == [first, second] && Wants(second, address)
    ensures var message := Message(Laid([[first], [second]], groups), scripts, 2, 1, 0, address);
      message.Some? && message.value[1] == "no operation"
  {
    TwoLaid(first, second, groups);
    ClustersForMeans(groups[1], ExceptOf(first), address);
  }

  method NewScripts(objects: seq<YamlPrjObj>, scripts: seq<string>, objNum: nat, m: nat, i: nat, address: string)
    returns (message: Option<seq<string>>)
    requires objNum * (m + 1) <= |scripts| && i <= m
    ensures message == Message(Contents(objects), scripts, objNum, m, i, address)
  {
    var newScripts: seq<string> := [];
    ghost var entries := Contents(objects);
    for k := 0 to objNum
      invariant |newScripts| == k && forall j :: 0 <= j < k ==> Index(objNum, m, j, i) < |objects|
      invariant forall j :: 0 <= j < k ==>
        0 <= Index(objNum, m, j, i) < |scripts|
        && newScripts[j] == EntryFor(entries, scripts, Index(objNum, m, j, i), address)
    {
      IndexBound(objNum, m, k, i);
      var scriptIndex := if i == 0 then k else objNum + k * m + i - 1;
      if scriptIndex >= |objects| {
        IndexGrows(objNum, m, k, objNum - 1, i);
        return None;
      }
      assert IsFor(entries[scriptIndex], address) <==>
        match objects[scriptIndex].clusters case None => false case Some(c) => address in c;
      var inClusters := match objects[scriptIndex].clusters
        case None => false
        case Some(c) => address in c;
      newScripts := newScripts + [if inClusters then scripts[scriptIndex] else "no operation"];
    }
    message := Some(newScripts);
    if objNum > 0 {
      assert Reaches(|entries|, objNum, m, i);
    }
    assert newScripts == Message(entries, scripts, objNum, m, i, address).value;
  }

  datatype Outcome = AllSent | SendFailed | Panicked

  ghost predicate NoneFails(sent: seq<Sending>, fails: string -> bool) {
    forall s :: s in sent ==> s.1.Some? && !fails(s.0)
  }

  ghost predicate FailsAtEnd(sent: seq<Sending>, fails: string -> bool) {
    sent != [] && sent[|sent| - 1].1.Some? && fails(sent[|sent| - 1].0) && NoneFails(sent[..|sent| - 1], fails)
  }

  /** The messages of `all` in order: all of them, or up to the first that cannot be sent, or that
  panics. */
  ghost predicate SentInOrder(sent: seq<Sending>, all: seq<Sending>, outcome: Outcome, fails: string -> bool) {
    match outcome
    case AllSent => sent == all && NoneFails(sent, fails)
    case SendFailed => sent <= all && FailsAtEnd(sent, fails)
    case Panicked => sent < all && all[|sent|].1.None? && NoneFails(sent, fails)
  }

  /** Scripts for the other nodes. `fails` says which nodes cannot be reached. */
  method SyncConfigToOthers(objects: seq<YamlPrjObj>, tcp: bool, connect: string, own: string,
                            scripts: Option<seq<string>>, fails: string -> bool)
    returns (outcome: Outcome, sent: seq<Sending>)
    ensures !tcp || scripts == None || scripts == Some([]) ==> outcome.AllSent? && sent == []
    ensures tcp && scripts.Some? && scripts.value != [] ==>
      var groups := GroupsOf(connect);
      var objNum := |scripts.value| / |groups|;
      && objNum * |groups| <= |scripts.value|
      && SentInOrder(sent, Sends(Contents(objects), scripts.value, groups, own, objNum, |groups|), outcome, fails)
  {
    outcome, sent := AllSent, [];
    if !tcp || scripts.None? || scripts.value == [] {
      return;
    }
    var groups := GroupsOf(connect);
    FloorTimes(|scripts.value|, |groups|);
    outcome, sent := SendAll(objects, groups, own, scripts.value, |scripts.value| / |groups|, fails);
  }

  lemma FloorTimes(x: nat, d: nat)
    requires d > 0
    ensures x / d * d <= x
  {
  }

  /** Group by group. */
  method SendAll(objects: seq<YamlPrjObj>, groups: Groups, own: string, scripts: seq<string>, objNum: nat,
                 fails: string -> bool)
    returns (outcome: Outcome, sent: seq<Sending>)
    requires objNum * |groups| <= |scripts|
    ensures SentInOrder(sent, Sends(Contents(objects), scripts, groups, own, objNum, |groups|), outcome, fails)
  {
    outcome, sent := AllSent, [];
    ghost var entries := Contents(objects);
    for i := 0 to |groups|
      invariant sent == Sends(entries, scripts, groups, own, objNum, i) && outcome.AllSent? && NoneFails(sent, fails)
    {
      ghost var j;
      outcome, sent, j := SendGroup(objects, groups, own, scripts, objNum, i, fails, sent);
      if !outcome.AllSent? {
        SendsGrow(entries, scripts, groups, own, objNum, i, j);
        return;
      }
    }
  }

  /** One group, address by address. */
  method SendGroup(objects: seq<YamlPrjObj>, groups: Groups, own: string, scripts: seq<string>, objNum: nat, i: nat,
                   fails: string -> bool, before: seq<Sending>)
    returns (outcome: Outcome, sent: seq<Sending>, ghost last: nat)
    requires objNum * |groups| <= |scripts| && i < |groups| && NoneFails(before, fails)
    ensures last <= |groups[i]| && (outcome.AllSent? ==> last == |groups[i]|)
    ensures var all := before + GroupSends(Contents(objects), scripts, groups, own, objNum, i, last);
      SentInOrder(sent, all, outcome, fails)
  {
    outcome, sent, last := AllSent, before, 0;
    ghost var entries := Contents(objects);
    for j := 0 to |groups[i]|
      invariant last == j && outcome.AllSent? && NoneFails(sent, fails)
      invariant sent == before + GroupSends(entries, scripts, groups, own, objNum, i, j)
    {
      var address := groups[i][j];
      last := j + 1;
      if address == own || address == "" {
        continue;
      }
      var message := NewScripts(objects, scripts, objNum, |groups| - 1, i, address);
      ghost var earlier := sent;
      ghost var next := before + GroupSends(entries, scripts, groups, own, objNum, i, j + 1);
      assert next == earlier + [(address, message)];
      if message.None? {
        return Panicked, sent, last;
      }
      sent := sent + [(address, message)];
      if fails(address) {
        assert sent[..|sent| - 1] == earlier;
        return SendFailed, sent, last;
      }
    }
  }

  /** What is sent up to an address is the beginning of all that is sent. */
  lemma SendsGrow(entries: seq<Entry>, scripts: seq<string>, groups: Groups, own: string, n: nat, i: nat, j: nat)
    requires i < |groups| && j <= |groups[i]| && n * |groups| <= |scripts|
    ensures Sends(entries, scripts, groups, own, n, i) + GroupSends(entries, scripts, groups, own, n, i, j)
         <= Sends(entries, scripts, groups, own, n, |groups|)
  {
    GroupSendsGrow(entries, scripts, groups, own, n, i, j, |groups[i]|);
    AllSendsGrow(entries, scripts, groups, own, n, i + 1, |groups|);
  }

  lemma {:induction false} GroupSendsGrow(entries: seq<Entry>, scripts: seq<string>, groups: Groups, own: string,
                                          n: nat, i: nat, j: nat, k: nat)
    requires i < |groups| && j <= k <= |groups[i]| && n * |groups| <= |scripts|
    ensures GroupSends(entries, scripts, groups, own, n, i, j) <= GroupSends(entries, scripts, groups, own, n, i, k)
  {
    if j < k {
      GroupSendsGrow(entries, scripts, groups, own, n, i, j, k - 1);
    }
  }

  lemma {:induction false} AllSendsGrow(entries: seq<Entry>, scripts: seq<string>, groups: Groups, own: string,
                                        n: nat, g: nat, h: nat)
    requires g <= h <= |groups| && n * |groups| <= |scripts|
    ensures Sends(entries, scripts, groups, own, n, g) <= Sends(entries, scripts, groups, own, n, h)
  {
    if g < h {
      AllSendsGrow(entries, scripts, groups, own, n, g, h - 1);
    }
  }
}
