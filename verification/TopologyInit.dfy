/** Building the topology tree from the system's mask files (common/topology/topology.go, InitTopo). */
module TopologyInit {
  import opened Words
  import opened Cpumasks
  import opened Prelude
  import opened Texts
  import opened Topology

  const CORES_PER_CLUSTER: int := 4

  /** What the files below /sys say. The file of a level is read as text. */
  datatype System = System(
    cpuNum: nat,
    online: int -> bool,
    maskFile: (TopoType, int) -> string,
    fileId: (TopoType, int) -> int)

  function StripSeparators(line: string): string {
    if line == [] then []
    else if line[0] == ',' || line[0] == '\n' then StripSeparators(line[1..])
    else [line[0]] + StripSeparators(line[1..])
  }

  predicate FromFile(t: TopoType) {
    t == CORE || t == NUMA || t == CHIP
  }

  /** The set of CPUs in the node of level `t` that contains `cpu`. Clusters are aligned blocks of
  four; the other levels come from files. */
  function LevelMask(sys: System, t: TopoType, cpu: int): set<int> {
    if t == CPU then InMask({cpu})
    else if t == CLUSTER then
      var start := cpu - TruncMod(cpu, CORES_PER_CLUSTER);
      InMask({start, start + 1, start + 2, start + 3})
    else HexMembers(ReadPart(StripSeparators(sys.maskFile(t, cpu))))
  }

  /** A mask ignores bits it has no room for. */
  function InMask(bits: set<int>): set<int> {
    set b | b in bits && 0 <= b < MASK_BITS
  }

  /** Online, and numbered below the count of usable CPUs, up to which InitTopo looks. */
  predicate Online(sys: System, cpu: int) {
    0 <= cpu < sys.cpuNum && sys.online(cpu)
  }

  // ---- what the masks of a level are ----

  lemma {:induction false} StripConcat(a: string, b: string)
    ensures StripSeparators(a + b) == StripSeparators(a) + StripSeparators(b)
  {
    if a == [] {
      assert a + b == b;
    } else {
      StripConcat(a[1..], b);
      assert (a + b)[1..] == a[1..] + b && (a + b)[0] == a[0];
      assert [a[0]] + (StripSeparators(a[1..]) + StripSeparators(b)) == [a[0]] + StripSeparators(a[1..]) + StripSeparators(b);
    }
  }

  lemma {:induction false} StripNothing(t: string)
    requires ',' !in t && '\n' !in t
    ensures StripSeparators(t) == t
  {
    if t != [] {
      StripNothing(t[1..]);
    }
  }

  /** Commas between the words of a mask and a newline behind it are dropped, and nothing else. */
  lemma {:induction false} StripJoined(words: seq<string>)
    requires words != [] && Without(words, ',') && Without(words, '\n')
    ensures StripSeparators(Joined(words, ',')) == Flatten(words)
    ensures StripSeparators(Joined(words, ',') + "\n") == Flatten(words)
  {
    var n := |words| - 1;
    StripNothing(words[n]);
    if n == 0 {
      assert Flatten(words) == Flatten([]) + words[0];
    } else {
      StripJoined(words[..n]);
      StripConcat(Joined(words[..n], ',') + ",", words[n]);
      StripConcat(Joined(words[..n], ','), ",");
    }
    StripConcat(Joined(words, ','), "\n");
  }

  lemma {:induction false} FlattenHex(words: seq<string>)
    requires forall i :: 0 <= i < |words| ==> AllHex(words[i])
    ensures AllHex(Flatten(words)) && Without(words, ',') && Without(words, '\n')
  {
    if words != [] {
      FlattenHex(words[..|words| - 1]);
    }
  }

  lemma HexIsRead(text: string)
    requires AllHex(text)
    ensures HexMembers(ReadPart(text)) == HexMembers(text)
  {
    TailIsRemainder(text);
    ReadWhole(text, 0);
    forall b: int | 0 <= b < MASK_BITS ensures b in HexMembers(ParsedTail(text)) <==> b in HexMembers(text) {
      LowPartAt(HexValue(text), MASK_BITS, b);
    }
  }

  lemma {:induction false} ZerosDenoteZero(zeros: string)
    requires AllIn(zeros, {'0'})
    ensures AllHex(zeros) && HexValue(zeros) == 0
  {
    if zeros != [] {
      ZerosDenoteZero(zeros[..|zeros| - 1]);
    }
  }

  /** A mask file holds a number in hex behind zeros, written as words with commas between them and a
  newline at the end. The CPUs of the level's mask are the bits of that number. */
  lemma MaskOfFile(sys: System, t: TopoType, cpu: int, words: seq<string>, zeros: string, n: nat)
    requires FromFile(t) && words != [] && forall i :: 0 <= i < |words| ==> AllHex(words[i])
    requires sys.maskFile(t, cpu) == Joined(words, ',') + "\n"
    requires AllIn(zeros, {'0'}) && Flatten(words) == zeros + HexText(n)
    ensures LevelMask(sys, t, cpu) == set b | 0 <= b < MASK_BITS && Bit(n, b)
  {
    FlattenHex(words);
    StripJoined(words);
    HexIsRead(Flatten(words));
    HexTextDenotes(n);
    ZerosDenoteZero(zeros);
    HexValueConcat(zeros, HexText(n));
  }

  /** A CPU is alone in its own mask; clusters are the aligned blocks of four CPUs. A mask holds only the
  numbers it has room for. */
  lemma MaskOfCpu(sys: System, cpu: nat, c: int)
    ensures c in LevelMask(sys, CPU, cpu) <==> 0 <= c < MASK_BITS && c == cpu
    ensures c in LevelMask(sys, CLUSTER, cpu) <==> 0 <= c < MASK_BITS && c / 4 == cpu / 4
  {
  }

  /** The masks of each level are classes of an equivalence on the online CPUs, each level refining
  the next. */
  ghost predicate Nested(sys: System) {
    && (forall t: TopoType, c :: t < ALL && Online(sys, c) ==> c in LevelMask(sys, t, c))
    && (forall t: TopoType, c, d :: t < ALL && Online(sys, c) && Online(sys, d) && d in LevelMask(sys, t, c) ==>
          LevelMask(sys, t, d) == LevelMask(sys, t, c))
    && (forall t: TopoType, c, d :: t < CHIP && Online(sys, c) && Online(sys, d) && d in LevelMask(sys, t, c) ==>
          d in LevelMask(sys, t + 1, c))
  }

  /** Four CPUs in two cores of two, one NUMA node and one chip. */
  function FourCpus(): System {
    System(4, c => 0 <= c < 4,
           (t, c) => if t != CORE then "f\n" else if c < 2 then "3\n" else "c\n",
           (t, c) => 0)
  }

  lemma BitsOfExamples(b: nat)
    ensures Bit(3, b) <==> b < 2
    ensures Bit(12, b) <==> 2 <= b < 4
    ensures Bit(15, b) <==> b < 4
  {
    if b >= 4 {
      ZeroHasNoBit(b - 4);
      assert Bit(3, b) == Bit(1, b - 1) == Bit(0, b - 2) == Bit(0, b - 3) == Bit(0, b - 4);
      assert Bit(12, b) == Bit(6, b - 1) == Bit(3, b - 2) == Bit(1, b - 3) == Bit(0, b - 4);
      assert Bit(15, b) == Bit(7, b - 1) == Bit(3, b - 2) == Bit(1, b - 3) == Bit(0, b - 4);
    }
  }

  lemma MaskOfDigit(sys: System, t: TopoType, cpu: int, n: nat)
    requires FromFile(t) && n < 16 && sys.maskFile(t, cpu) == [HEX_DIGITS[n]] + "\n"
    ensures LevelMask(sys, t, cpu) == set b | 0 <= b < MASK_BITS && Bit(n, b)
  {
    assert Flatten([HexText(n)]) == Flatten([]) + HexText(n);
    HexTextDenotes(n);
    MaskOfFile(sys, t, cpu, [HexText(n)], "", n);
  }

  lemma MaskFileOfFour(t: TopoType, c: int, b: nat)
    requires FromFile(t) && 0 <= c < 4
    ensures b in LevelMask(FourCpus(), t, c) <==> if t == CORE then b / 2 == c / 2 else b < 4
  {
    BitsOfExamples(b);
    MaskOfDigit(FourCpus(), t, c, if t != CORE then 15 else if c < 2 then 3 else 12);
  }

  lemma MaskOfFour(t: TopoType, c: int, b: int)
    requires t < ALL && 0 <= c < 4
    ensures b in LevelMask(FourCpus(), t, c) <==>
      b >= 0 && if t == CPU then b == c else if t == CORE then b / 2 == c / 2 else b < 4
  {
    if b >= 0 {
      if FromFile(t) {
        MaskFileOfFour(t, c, b);
      } else {
        MaskOfCpu(FourCpus(), c, b);
      }
    }
  }

  /** Its masks are nested: a core is within its cluster, and that within its NUMA node and chip. */
  lemma FourCpusNested()
    ensures Nested(FourCpus())
    ensures forall c, d :: 0 <= c < 4 && 0 <= d < 4 ==>
      (d in LevelMask(FourCpus(), CORE, c) <==> c / 2 == d / 2) && d in LevelMask(FourCpus(), CHIP, c)
  {
    var sys := FourCpus();
    forall t: TopoType, c, b | t < ALL && 0 <= c < 4
      ensures b in LevelMask(sys, t, c) <==>
        b >= 0 && if t == CPU then b == c else if t == CORE then b / 2 == c / 2 else b < 4
    {
      MaskOfFour(t, c, b);
    }
  }

  // ---- the partly built tree ----

  /** The set of CPUs that a node below the root stands for: the mask of the CPU that created it. */
  ghost function MaskOf(sys: System, n: TopoNode): set<int> {
    LevelMask(sys, n.topotype, n.rep)
  }

  /** The id of the node that a CPU creates on a level. */
  function IdOf(sys: System, t: TopoType, cpu: int): int {
    if t == CPU then cpu else if t == CLUSTER then TruncDiv(cpu, CORES_PER_CLUSTER) else sys.fileId(t, cpu)
  }

  /** Every node was created by an online CPU scanned so far, and its parent stands for that CPU's
  class one level up. */
  ghost predicate Represented(sys: System, tree: Tree, next: int) {
    && (forall n {:trigger n.rep} :: n in tree.nodes && n.topotype < ALL ==> Online(sys, n.rep) && n.rep < next)
    && (forall n {:trigger tree.up[n]} :: n in tree.nodes && n.topotype < CHIP ==>
          MaskOf(sys, tree.up[n]) == LevelMask(sys, n.topotype + 1, n.rep))
    && (forall n {:trigger n.id} :: n in tree.nodes && n.topotype < ALL ==> n.id == IdOf(sys, n.topotype, n.rep))
  }

  /** A level has each mask once, and the root is the only node of its level. */
  ghost predicate Deduplicated(sys: System, root: TopoNode, tree: Tree) {
    && root in tree.nodes && root.topotype == ALL
    && (forall n {:trigger n.topotype} :: n in tree.nodes && n.topotype == ALL ==> n == root)
    && (forall m, n {:trigger MaskOf(sys, m), MaskOf(sys, n)} ::
          m in tree.nodes && n in tree.nodes && m.topotype == n.topotype < ALL && MaskOf(sys, m) == MaskOf(sys, n) ==> m == n)
  }

  ghost predicate ListsLevels(tree: Tree, lists: seq<seq<TopoNode>>) {
    && |lists| == ALL + 1
    && (forall t :: 0 <= t <= ALL ==> NoDuplicates(lists[t]))
    && (forall t, n :: 0 <= t <= ALL && n in lists[t] ==> n in tree.nodes && n.topotype == t)
    && (forall n {:trigger lists[n.topotype]} :: n in tree.nodes ==> n in lists[n.topotype])
  }

  ghost predicate Built(sys: System, root: TopoNode, tree: Tree, lists: seq<seq<TopoNode>>, next: int) {
    match tree
    case TreeData(_, _, _) =>
      && Represented(sys, tree, next)
      && Deduplicated(sys, root, tree)
      && ListsLevels(tree, lists)
  }

  // ---- what the nodes' own masks and counters are ----

  /** Below the root a node's mask is what it stands for; no counter has been changed yet. */
  ghost predicate Initial(sys: System, tree: Tree)
    reads tree.nodes`mask, tree.nodes`loadInfo
  {
    match tree
    case TreeData(nodes, _, _) =>
      forall n :: n in nodes ==>
        n.loadInfo == TopoLoadInfo(0, 0, 0, 0) && (n.topotype < ALL ==> Members(n.mask) == MaskOf(sys, n))
  }

  /** `covered` is the union of the chips' masks. */
  ghost predicate UnionOfChips(sys: System, tree: Tree, covered: set<int>) {
    match tree
    case TreeData(nodes, _, _) =>
      && (forall n {:trigger MaskOf(sys, n)} :: n in nodes && n.topotype == CHIP ==> MaskOf(sys, n) <= covered)
      && (forall b :: b in covered ==> exists n :: n in nodes && n.topotype == CHIP && b in MaskOf(sys, n))
  }

  // ---- attaching a node ----

  /** Attaching `n` as the last child of `p`. */
  ghost function Attached(tree: Tree, n: TopoNode, p: TopoNode): (r: Tree)
    requires n !in tree.nodes && p in tree.nodes && n.topotype + 1 == p.topotype
    ensures r.nodes == tree.nodes + {n} && r.up == tree.up[n := p]
    ensures r.kids == tree.kids[p := tree.kids[p] + [n]][n := []]
  {
    var r := TreeData(tree.nodes + {n}, tree.up[n := p], tree.kids[p := tree.kids[p] + [n]][n := []]);
    AttachedIsTree(tree, n, p, r);
    r
  }

  lemma AttachedIsTree(tree: Tree, n: TopoNode, p: TopoNode, r: TreeData)
    requires n !in tree.nodes && p in tree.nodes && n.topotype + 1 == p.topotype
    requires r == TreeData(tree.nodes + {n}, tree.up[n := p], tree.kids[p := tree.kids[p] + [n]][n := []])
    ensures WellFormed(r)
  {
    assert n !in tree.kids[p] by { assert n !in tree.up; }
    assert NoDuplicates(tree.kids[p]);
    assert NoDuplicates(tree.kids[p] + [n]);
    forall c | c in r.up ensures r.up[c] in r.nodes && r.up[c].topotype == c.topotype + 1 && c in r.kids[r.up[c]] {
      if c != n {
        assert tree.up[c] in tree.nodes;
      }
    }
  }

  /** A new node of a mask not seen on its level, under the node that its creator's class has one
  level up, keeps everything known about the tree. */
  lemma AttachKeepsBuilt(sys: System, root: TopoNode, tree: Tree, lists: seq<seq<TopoNode>>, next: int, n: TopoNode, p: TopoNode)
    requires Built(sys, root, tree, lists, next)
    requires n !in tree.nodes && p in tree.nodes && n.topotype + 1 == p.topotype
    requires Online(sys, n.rep) && n.rep < next && n.id == IdOf(sys, n.topotype, n.rep)
    requires p.topotype < ALL ==> MaskOf(sys, p) == LevelMask(sys, p.topotype, n.rep)
    requires forall m :: m in lists[n.topotype] ==> MaskOf(sys, m) != MaskOf(sys, n)
    ensures Built(sys, root, Attached(tree, n, p), lists[n.topotype := lists[n.topotype] + [n]], next)
  {
    AttachKeepsRepresented(sys, tree, next, n, p);
    AttachKeepsDeduplicated(sys, root, tree, lists, n, p);
    AttachKeepsLists(tree, lists, n, p);
  }

  lemma AttachKeepsRepresented(sys: System, tree: Tree, next: int, n: TopoNode, p: TopoNode)
    requires Represented(sys, tree, next)
    requires n !in tree.nodes && p in tree.nodes && n.topotype + 1 == p.topotype
    requires Online(sys, n.rep) && n.rep < next && n.id == IdOf(sys, n.topotype, n.rep)
    requires p.topotype < ALL ==> MaskOf(sys, p) == LevelMask(sys, p.topotype, n.rep)
    ensures Represented(sys, Attached(tree, n, p), next)
  {
    var t' := Attached(tree, n, p);
    forall m | m in t'.nodes && m.topotype < CHIP
      ensures MaskOf(sys, t'.up[m]) == LevelMask(sys, m.topotype + 1, m.rep)
    {
      if m != n {
        assert t'.up[m] == tree.up[m];
      }
    }
  }

  lemma AttachKeepsDeduplicated(sys: System, root: TopoNode, tree: Tree, lists: seq<seq<TopoNode>>,
                                n: TopoNode, p: TopoNode)
    requires Deduplicated(sys, root, tree) && ListsLevels(tree, lists)
    requires n !in tree.nodes && p in tree.nodes && n.topotype + 1 == p.topotype
    requires forall m :: m in lists[n.topotype] ==> MaskOf(sys, m) != MaskOf(sys, n)
    ensures Deduplicated(sys, root, Attached(tree, n, p))
  {
  }

  lemma AttachKeepsLists(tree: Tree, lists: seq<seq<TopoNode>>, n: TopoNode, p: TopoNode)
    requires ListsLevels(tree, lists)
    requires n !in tree.nodes && p in tree.nodes && n.topotype + 1 == p.topotype
    ensures ListsLevels(Attached(tree, n, p), lists[n.topotype := lists[n.topotype] + [n]])
  {
    var t := n.topotype;
    assert n !in lists[t];
    assert NoDuplicates(lists[t] + [n]);
  }

  lemma AttachWidens(sys: System, tree: Tree, covered: set<int>, n: TopoNode, p: TopoNode)
    requires UnionOfChips(sys, tree, covered)
    requires n !in tree.nodes && p in tree.nodes && n.topotype + 1 == p.topotype
    ensures UnionOfChips(sys, Attached(tree, n, p), if n.topotype == CHIP then covered + MaskOf(sys, n) else covered)
  {
    var t', covered' := Attached(tree, n, p), if n.topotype == CHIP then covered + MaskOf(sys, n) else covered;
    forall b | b in covered' ensures exists m :: m in t'.nodes && m.topotype == CHIP && b in MaskOf(sys, m) {
      if b in covered {
        var m :| m in tree.nodes && m.topotype == CHIP && b in MaskOf(sys, m);
        assert m in t'.nodes;
      } else {
        assert n in t'.nodes;
      }
    }
  }

  // ---- what the finished tree means ----

  /** Every online CPU below `next` has a leaf. */
  ghost predicate Covered(sys: System, tree: Tree, next: int) {
    forall c :: Online(sys, c) && c < next ==> exists l :: l in tree.nodes && l.topotype == CPU && l.id == c
  }

  lemma LeafStands(sys: System, tree: Tree, next: int, l: TopoNode)
    requires Represented(sys, tree, next) && l in tree.nodes && l.topotype == CPU
    ensures l.id == l.rep && Online(sys, l.id) && MaskOf(sys, l) == LevelMask(sys, CPU, l.id)
  {
  }

  /** The parent chain of a leaf is its core, cluster, NUMA node and chip. */
  lemma {:induction false} ChainMasks(sys: System, tree: Tree, next: int, l: TopoNode, t: TopoType)
    requires Nested(sys) && Represented(sys, tree, next)
    requires l in tree.nodes && l.topotype == CPU && t < ALL
    ensures MaskOf(sys, Ancestor(tree, l, t)) == LevelMask(sys, t, l.id)
  {
    LeafStands(sys, tree, next, l);
    if t > 0 {
      ChainMasks(sys, tree, next, l, t - 1);
      AncestorStep(tree, l, t - 1);
      NextClass(sys, tree, next, Ancestor(tree, l, t - 1), l.id);
    }
  }

  /** The parent of a node that stands for a CPU's class stands for its class one level up. */
  lemma NextClass(sys: System, tree: Tree, next: int, a: TopoNode, cpu: int)
    requires Nested(sys) && Represented(sys, tree, next) && a in tree.nodes && a.topotype < CHIP && Online(sys, cpu)
    requires MaskOf(sys, a) == LevelMask(sys, a.topotype, cpu)
    ensures MaskOf(sys, tree.up[a]) == LevelMask(sys, a.topotype + 1, cpu)
  {
    assert Online(sys, a.rep) && cpu in LevelMask(sys, a.topotype, a.rep);
  }

  /** The leaves below a node are exactly the leaves of the CPUs it stands for. */
  lemma BelowIffInMask(sys: System, root: TopoNode, tree: Tree, next: int, l: TopoNode, n: TopoNode)
    requires Nested(sys) && Represented(sys, tree, next) && Deduplicated(sys, root, tree)
    requires l in tree.nodes && l.topotype == CPU && n in tree.nodes && n.topotype < ALL
    ensures Below(tree, l, n) <==> l.id in MaskOf(sys, n)
  {
    assert l.id == l.rep && Online(sys, l.rep) && Online(sys, n.rep);
    ChainMasks(sys, tree, next, l, n.topotype);
    assert MaskOf(sys, n) == LevelMask(sys, n.topotype, n.rep);
  }

  // ---- reading masks ----

  /** getMaskFromFile: the separators are dropped before parsing, and a parsing error is ignored. */
  method GetMaskFromFile(sys: System, t: TopoType, cpu: int) returns (mask: Cpumask)
    requires FromFile(t)
    ensures fresh(mask)
    ensures var text := StripSeparators(sys.maskFile(t, cpu));
      && Members(mask.masks) == HexMembers(ReadPart(text))
      && (AllHex(text) ==> Members(mask.masks) == HexMembers(text))
  {
    mask := new Cpumask();
    var line := StripSeparators(sys.maskFile(t, cpu));
    var ok := mask.ParseString(line);
    MaskHoldsRead(line, mask.masks, ok);
    if AllHex(line) {
      WholeFileRead(line, mask.masks, ok);
    }
  }

  lemma WholeFileRead(line: string, words: MaskWords, ok: bool)
    requires AllHex(line) && (ok <==> line != [] && AllHex(ParsedTail(line)))
    requires ok ==> Value(words) == HexValue(ParsedTail(line))
    requires Members(words) == HexMembers(ReadPart(line))
    ensures Members(words) == HexMembers(line)
  {
    TailIsRemainder(line);
    if ok {
      ParsedMembers(line, words);
    }
  }

  method GetClusterMask(cpu: int) returns (mask: Cpumask)
    ensures fresh(mask)
    ensures var start := cpu - TruncMod(cpu, CORES_PER_CLUSTER);
      Members(mask.masks) == InMask({start, start + 1, start + 2, start + 3})
  {
    mask := new Cpumask();
    mask.Init();
    var cpuStart := cpu - TruncMod(cpu, CORES_PER_CLUSTER);
    for i := 0 to CORES_PER_CLUSTER
      invariant forall b :: b in Members(mask.masks) <==> 0 <= b < MASK_BITS && cpuStart <= b < cpuStart + i
    {
      mask.Set(cpuStart + i);
    }
  }

  method GetLevelMask(sys: System, t: TopoType, cpu: int) returns (mask: Cpumask)
    requires t < ALL
    ensures fresh(mask) && Members(mask.masks) == LevelMask(sys, t, cpu)
  {
    if t == CPU {
      mask := new Cpumask();
      mask.Set(cpu);
    } else if t == CLUSTER {
      mask := GetClusterMask(cpu);
    } else {
      mask := GetMaskFromFile(sys, t, cpu);
    }
  }

  // ---- the finished tree ----

  /** The online CPUs and the leaves correspond one to one. */
  ghost predicate OneLeafPerCpu(sys: System, tree: Tree, leaves: seq<TopoNode>) {
    && ListsLeaves(tree.nodes, leaves)
    && (forall l :: l in leaves ==> Online(sys, l.id))
    && (forall c :: Online(sys, c) ==> exists l :: l in leaves && l.id == c)
    && (forall k, l :: k in leaves && l in leaves && k.id == l.id ==> k == l)
  }

  /** The parent chain of a leaf is its CPU's core, cluster, NUMA node and chip. */
  ghost predicate ChainsMatch(sys: System, tree: Tree)
    reads tree.nodes`mask
  {
    forall l, t: TopoType :: l in tree.nodes && l.topotype == CPU && t < ALL ==>
      Members(Ancestor(tree, l, t).mask) == LevelMask(sys, t, l.id)
  }

  /** Each level's list holds each class of the online CPUs. */
  ghost predicate ClassesListed(sys: System, tree: Tree, lists: seq<seq<TopoNode>>)
    requires |lists| == ALL + 1
    reads tree.nodes`mask
  {
    forall t: TopoType, c :: t < ALL && Online(sys, c) ==>
      exists n :: n in lists[t] && n in tree.nodes && Members(n.mask) == LevelMask(sys, t, c)
  }

  /** No level has a mask twice. */
  ghost predicate MasksOnce(tree: Tree)
    reads tree.nodes`mask
  {
    forall m, n :: m in tree.nodes && n in tree.nodes && m.topotype == n.topotype && m != n ==>
      Members(m.mask) != Members(n.mask)
  }

  /** The leaves below a node are exactly those of the CPUs in its mask. */
  ghost predicate LeavesMatchMasks(tree: Tree)
    reads tree.nodes`mask
  {
    forall n, l :: n in tree.nodes && l in tree.nodes && l.topotype == CPU ==> (Below(tree, l, n) <==> l.id in Members(n.mask))
  }

  /** No leaf was created for `cpu` yet. */
  /** Cores, NUMA nodes and chips have the id that the files give for one of their CPUs; the id of a
  cluster is the number of any of its CPUs divided by four. */
  ghost predicate IdsMeant(sys: System, tree: Tree)
    reads tree.nodes`mask
  {
    && (forall n :: n in tree.nodes && FromFile(n.topotype) ==>
          exists c :: Online(sys, c) && c in Members(n.mask) && n.id == sys.fileId(n.topotype, c))
    && (forall n, c :: n in tree.nodes && n.topotype == CLUSTER && c in Members(n.mask) ==> n.id == c / 4)
  }

  lemma FinishedIds(sys: System, tree: Tree)
    requires Nested(sys) && Represented(sys, tree, sys.cpuNum) && Initial(sys, tree)
    ensures IdsMeant(sys, tree)
  {
    forall n | n in tree.nodes && n.topotype < ALL
      ensures Online(sys, n.rep) && n.rep in Members(n.mask) && n.id == IdOf(sys, n.topotype, n.rep)
    {
      assert n.rep in LevelMask(sys, n.topotype, n.rep);
    }
    forall n, c | n in tree.nodes && n.topotype == CLUSTER && c in Members(n.mask) ensures n.id == c / 4 {
      MaskOfCpu(sys, n.rep, c);
    }
  }

  ghost predicate NoLeafOf(tree: Tree, cpu: int) {
    forall n :: n in tree.nodes && n.topotype == CPU ==> n.rep != cpu
  }

  lemma BuiltNext(sys: System, root: TopoNode, tree: Tree, lists: seq<seq<TopoNode>>, cpu: int)
    requires Built(sys, root, tree, lists, cpu)
    ensures Built(sys, root, tree, lists, cpu + 1) && NoLeafOf(tree, cpu)
  {
    forall n | n in tree.nodes && n.topotype == CPU ensures n.rep != cpu {
      assert n.rep < cpu;
    }
  }

  lemma CoveredNext(sys: System, tree: Tree, tree': Tree, cpu: int)
    requires Covered(sys, tree, cpu) && tree.nodes <= tree'.nodes
    requires exists l :: l in tree'.nodes && l.topotype == CPU && l.id == cpu
    ensures Covered(sys, tree', cpu + 1)
  {
    forall c | Online(sys, c) && c < cpu + 1 ensures exists l :: l in tree'.nodes && l.topotype == CPU && l.id == c {
      if c < cpu {
        var l :| l in tree.nodes && l.topotype == CPU && l.id == c;
        assert l in tree'.nodes;
      }
    }
  }

  lemma FinishedLeaves(sys: System, root: TopoNode, tree: Tree, lists: seq<seq<TopoNode>>)
    requires Nested(sys) && Built(sys, root, tree, lists, sys.cpuNum) && Covered(sys, tree, sys.cpuNum)
    ensures OneLeafPerCpu(sys, tree, lists[CPU])
  {
    forall k, l | k in lists[CPU] && l in lists[CPU] && k.id == l.id ensures k == l {
      assert MaskOf(sys, k) == MaskOf(sys, l);
    }
    forall l | l in lists[CPU] ensures Online(sys, l.id) {
      assert l.id == l.rep;
    }
    forall c | Online(sys, c) ensures exists l :: l in lists[CPU] && l.id == c {
      var l :| l in tree.nodes && l.topotype == CPU && l.id == c;
      assert l in lists[l.topotype];
    }
  }

  lemma FinishedChains(sys: System, root: TopoNode, tree: Tree, lists: seq<seq<TopoNode>>)
    requires Nested(sys) && Built(sys, root, tree, lists, sys.cpuNum) && Initial(sys, tree)
    ensures ChainsMatch(sys, tree)
  {
    forall l, t: TopoType | l in tree.nodes && l.topotype == CPU && t < ALL
      ensures Members(Ancestor(tree, l, t).mask) == LevelMask(sys, t, l.id)
    {
      ChainMasks(sys, tree, sys.cpuNum, l, t);
    }
  }

  lemma ClassListed(sys: System, tree: Tree, lists: seq<seq<TopoNode>>, t: TopoType, l: TopoNode)
    requires ListsLevels(tree, lists) && l in tree.nodes && l.topotype == CPU && t < ALL
    ensures Ancestor(tree, l, t) in lists[t]
  {
    var a := Ancestor(tree, l, t);
    assert a in lists[a.topotype];
  }

  lemma FinishedClasses(sys: System, tree: Tree, lists: seq<seq<TopoNode>>)
    requires ListsLevels(tree, lists) && Covered(sys, tree, sys.cpuNum) && ChainsMatch(sys, tree)
    ensures ClassesListed(sys, tree, lists)
  {
    forall t: TopoType, c | t < ALL && Online(sys, c)
      ensures exists n :: n in lists[t] && n in tree.nodes && Members(n.mask) == LevelMask(sys, t, c)
    {
      var l :| l in tree.nodes && l.topotype == CPU && l.id == c;
      ClassListed(sys, tree, lists, t, l);
      assert Members(Ancestor(tree, l, t).mask) == LevelMask(sys, t, l.id);
    }
  }

  lemma FinishedDistinct(sys: System, root: TopoNode, tree: Tree)
    requires Deduplicated(sys, root, tree) && Initial(sys, tree)
    ensures MasksOnce(tree)
  {
    forall m, n | m in tree.nodes && n in tree.nodes && m.topotype == n.topotype && m != n
      ensures Members(m.mask) != Members(n.mask)
    {
      if m.topotype < ALL {
        assert MaskOf(sys, m) != MaskOf(sys, n);
      }
    }
  }

  lemma FinishedMasks(sys: System, root: TopoNode, tree: Tree, lists: seq<seq<TopoNode>>)
    requires Nested(sys) && Built(sys, root, tree, lists, sys.cpuNum)
    requires Initial(sys, tree) && UnionOfChips(sys, tree, Members(root.mask))
    ensures LeavesMatchMasks(tree)
  {
    forall n, l | n in tree.nodes && l in tree.nodes && l.topotype == CPU
      ensures Below(tree, l, n) <==> l.id in Members(n.mask)
    {
      if n.topotype < ALL {
        BelowIffInMask(sys, root, tree, sys.cpuNum, l, n);
      } else {
        var chip := Ancestor(tree, l, CHIP);
        BelowIffInMask(sys, root, tree, sys.cpuNum, l, chip);
        assert MaskOf(sys, chip) <= Members(root.mask);
      }
    }
  }

  /** All that InitTopo promises, for masks that are nested classes of the online CPUs. */
  lemma Finished(sys: System, root: TopoNode, tree: Tree, lists: seq<seq<TopoNode>>)
    requires Nested(sys) && Built(sys, root, tree, lists, sys.cpuNum) && Covered(sys, tree, sys.cpuNum)
    requires Initial(sys, tree) && UnionOfChips(sys, tree, Members(root.mask))
    ensures OneLeafPerCpu(sys, tree, lists[CPU]) && ChainsMatch(sys, tree)
    ensures ClassesListed(sys, tree, lists) && MasksOnce(tree) && LeavesMatchMasks(tree)
    ensures Aggregated(tree, lists[CPU]) && IdsMeant(sys, tree)
  {
    FinishedIds(sys, tree);
    FinishedLeaves(sys, root, tree, lists);
    FinishedChains(sys, root, tree, lists);
    FinishedClasses(sys, tree, lists);
    FinishedDistinct(sys, root, tree);
    FinishedMasks(sys, root, tree, lists);
    InitialAggregated(sys, tree, lists[CPU]);
  }

  /** With every counter zero, every node is trivially the sum of its leaves. */
  lemma {:induction false} ZeroSums(tree: Tree, leaves: seq<TopoNode>, n: TopoNode, values: Values)
    requires n in tree.nodes && values.Keys == tree.nodes && forall l :: l in leaves ==> l in tree.nodes
    requires forall m :: m in tree.nodes ==> values[m] == 0
    ensures SumBelow(tree, leaves, n, values) == 0
  {
    if leaves != [] {
      ZeroSums(tree, leaves[..|leaves| - 1], n, values);
    }
  }

  lemma InitialAggregated(sys: System, tree: Tree, leaves: seq<TopoNode>)
    requires Initial(sys, tree) && ListsLeaves(tree.nodes, leaves)
    ensures Aggregated(tree, leaves)
  {
    forall c: Counter ensures AggregatedIn(tree, leaves, ValuesOf(Snapshot(tree.nodes), c)) {
      var values := ValuesOf(Snapshot(tree.nodes), c);
      forall n | n in tree.nodes ensures values[n] == SumBelow(tree, leaves, n, values) {
        ZeroSums(tree, leaves, n, values);
      }
    }
  }

  // ---- the map of NUMA ids ----

  /** Each node under its id; of those with the same id, the last. */
  function ById(list: seq<TopoNode>): map<int, TopoNode> {
    if list == [] then map[] else ById(list[..|list| - 1])[list[|list| - 1].id := list[|list| - 1]]
  }

  lemma {:induction false} FoundById(list: seq<TopoNode>, n: TopoNode)
    requires n in list
    ensures n.id in ById(list) && ById(list)[n.id] in list && ById(list)[n.id].id == n.id
  {
    var front, last := list[..|list| - 1], list[|list| - 1];
    assert list == front + [last];
    if n.id != last.id {
      FoundById(front, n);
    }
  }

  lemma {:induction false} KeyIsId(list: seq<TopoNode>, k: int)
    requires k in ById(list)
    ensures ById(list)[k].id == k
  {
    var front, last := list[..|list| - 1], list[|list| - 1];
    if k != last.id {
      KeyIsId(front, k);
    }
  }

  lemma ByIdNext(list: seq<TopoNode>, n: TopoNode)
    ensures ById(list + [n]) == ById(list)[n.id := n]
  {
    assert (list + [n])[..|list|] == list;
  }

  /** Two online CPUs have the same NUMA id exactly if they are in the same NUMA mask. */
  ghost predicate IdsMatch(sys: System) {
    forall c, d :: Online(sys, c) && Online(sys, d) ==>
      (sys.fileId(NUMA, c) == sys.fileId(NUMA, d) <==> d in LevelMask(sys, NUMA, c))
  }

  /** The map holds, under the NUMA id of each CPU, the NUMA node above its leaf. */
  ghost predicate FindsNumaNodes(sys: System, tree: Tree, numaMap: map<int, TopoNode>) {
    forall l :: l in tree.nodes && l.topotype == CPU ==>
      sys.fileId(NUMA, l.id) in numaMap && numaMap[sys.fileId(NUMA, l.id)] == Ancestor(tree, l, NUMA)
  }

  /** Two CPUs are in one class exactly if one is in the mask of the other. */
  lemma SameClassIff(sys: System, c: int, d: int)
    requires Nested(sys) && Online(sys, c) && Online(sys, d)
    ensures LevelMask(sys, NUMA, c) == LevelMask(sys, NUMA, d) <==> d in LevelMask(sys, NUMA, c)
  {
  }

  lemma SameNodeIff(sys: System, root: TopoNode, tree: Tree, a: TopoNode, b: TopoNode)
    requires Deduplicated(sys, root, tree) && a in tree.nodes && b in tree.nodes && a.topotype == b.topotype == NUMA
    ensures a == b <==> MaskOf(sys, a) == MaskOf(sys, b)
  {
  }

  /** The NUMA node of a CPU: a listed node that stands for its class. */
  ghost predicate NumaOf(sys: System, n: TopoNode, cpu: int) {
    && Online(sys, n.rep) && Online(sys, cpu) && n.topotype == NUMA && n.id == sys.fileId(NUMA, n.rep)
    && LevelMask(sys, NUMA, n.rep) == LevelMask(sys, NUMA, cpu)
  }

  lemma NumaAbove(sys: System, root: TopoNode, tree: Tree, lists: seq<seq<TopoNode>>, l: TopoNode)
    requires Nested(sys) && Built(sys, root, tree, lists, sys.cpuNum) && l in tree.nodes && l.topotype == CPU
    ensures Ancestor(tree, l, NUMA) in lists[NUMA] && NumaOf(sys, Ancestor(tree, l, NUMA), l.id)
  {
    ChainMasks(sys, tree, sys.cpuNum, l, NUMA);
    ClassListed(sys, tree, lists, NUMA, l);
    NumaStands(sys, tree, sys.cpuNum, Ancestor(tree, l, NUMA), l);
  }

  lemma NumaStands(sys: System, tree: Tree, next: int, numa: TopoNode, l: TopoNode)
    requires Represented(sys, tree, next) && l in tree.nodes && l.topotype == CPU
    requires numa in tree.nodes && numa.topotype == NUMA && MaskOf(sys, numa) == LevelMask(sys, NUMA, l.id)
    ensures NumaOf(sys, numa, l.id)
  {
    assert l.id == l.rep && numa.id == IdOf(sys, NUMA, numa.rep);
  }

  lemma ListedNuma(sys: System, root: TopoNode, tree: Tree, lists: seq<seq<TopoNode>>, n: TopoNode)
    requires Built(sys, root, tree, lists, sys.cpuNum) && n in lists[NUMA]
    ensures n in tree.nodes && NumaOf(sys, n, n.rep)
  {
  }

  lemma NumaIds(sys: System, a: TopoNode, b: TopoNode, c: int)
    requires Nested(sys) && IdsMatch(sys) && NumaOf(sys, a, c) && NumaOf(sys, b, b.rep)
    ensures a.id == sys.fileId(NUMA, c) && (b.id == a.id ==> MaskOf(sys, b) == MaskOf(sys, a))
  {
    SameClassIff(sys, a.rep, c);
    SameClassIff(sys, a.rep, b.rep);
  }

  lemma FinishedMap(sys: System, root: TopoNode, tree: Tree, lists: seq<seq<TopoNode>>)
    requires Nested(sys) && IdsMatch(sys) && Built(sys, root, tree, lists, sys.cpuNum)
    ensures FindsNumaNodes(sys, tree, ById(lists[NUMA]))
  {
    forall l | l in tree.nodes && l.topotype == CPU
      ensures sys.fileId(NUMA, l.id) in ById(lists[NUMA])
      ensures ById(lists[NUMA])[sys.fileId(NUMA, l.id)] == Ancestor(tree, l, NUMA)
    {
      NumaAbove(sys, root, tree, lists, l);
      MappedAbove(sys, root, tree, lists, l.id, Ancestor(tree, l, NUMA));
    }
  }

  lemma MappedAbove(sys: System, root: TopoNode, tree: Tree, lists: seq<seq<TopoNode>>, cpu: int, numa: TopoNode)
    requires Nested(sys) && IdsMatch(sys) && Built(sys, root, tree, lists, sys.cpuNum)
    requires numa in lists[NUMA] && NumaOf(sys, numa, cpu)
    ensures sys.fileId(NUMA, cpu) in ById(lists[NUMA]) && ById(lists[NUMA])[sys.fileId(NUMA, cpu)] == numa
  {
    FoundById(lists[NUMA], numa);
    var found := ById(lists[NUMA])[numa.id];
    ListedNuma(sys, root, tree, lists, numa);
    ListedNuma(sys, root, tree, lists, found);
    NumaIds(sys, numa, found, cpu);
    SameNodeIff(sys, root, tree, found, numa);
  }

  /** Ids and masks correspond on the CPUs that have leaves. */
  ghost predicate LeavesMatch(sys: System, tree: Tree) {
    forall k, l :: k in tree.nodes && k.topotype == CPU && l in tree.nodes && l.topotype == CPU ==>
      (sys.fileId(NUMA, k.id) == sys.fileId(NUMA, l.id) <==> l.id in LevelMask(sys, NUMA, k.id))
  }

  lemma LeavesMatchForAll(sys: System, tree: Tree)
    requires LeavesMatch(sys, tree) && Covered(sys, tree, sys.cpuNum)
    ensures IdsMatch(sys)
  {
    forall c, d | Online(sys, c) && Online(sys, d)
      ensures sys.fileId(NUMA, c) == sys.fileId(NUMA, d) <==> d in LevelMask(sys, NUMA, c)
    {
      var k :| k in tree.nodes && k.topotype == CPU && k.id == c;
      var l :| l in tree.nodes && l.topotype == CPU && l.id == d;
    }
  }

  /** The map finds them only then. */
  lemma FoundNeedsMatch(sys: System, root: TopoNode, tree: Tree, lists: seq<seq<TopoNode>>)
    requires Nested(sys) && Built(sys, root, tree, lists, sys.cpuNum)
    requires FindsNumaNodes(sys, tree, ById(lists[NUMA]))
    ensures LeavesMatch(sys, tree)
  {
    forall k, l | k in tree.nodes && k.topotype == CPU && l in tree.nodes && l.topotype == CPU
      ensures sys.fileId(NUMA, k.id) == sys.fileId(NUMA, l.id) <==> l.id in LevelMask(sys, NUMA, k.id)
    {
      FoundAlike(sys, root, tree, lists, k, l);
    }
  }

  lemma FoundAlike(sys: System, root: TopoNode, tree: Tree, lists: seq<seq<TopoNode>>, k: TopoNode, l: TopoNode)
    requires Nested(sys) && Built(sys, root, tree, lists, sys.cpuNum)
    requires FindsNumaNodes(sys, tree, ById(lists[NUMA]))
    requires k in tree.nodes && k.topotype == CPU && l in tree.nodes && l.topotype == CPU
    ensures sys.fileId(NUMA, k.id) == sys.fileId(NUMA, l.id) <==> l.id in LevelMask(sys, NUMA, k.id)
  {
    NumaAbove(sys, root, tree, lists, k);
    NumaAbove(sys, root, tree, lists, l);
    SameNodeIff(sys, root, tree, Ancestor(tree, k, NUMA), Ancestor(tree, l, NUMA));
    SameClassIff(sys, k.id, l.id);
    KeyIsId(lists[NUMA], sys.fileId(NUMA, k.id));
    KeyIsId(lists[NUMA], sys.fileId(NUMA, l.id));
  }

  ghost predicate HasLeaf(leaves: seq<TopoNode>, cpu: int) {
    exists l :: l in leaves && l.id == cpu
  }

  /** Every CPU that is online has a leaf exactly if none is numbered from the count of usable CPUs on,
  that is, if none is behind one that is offline. */
  lemma AllOnlineHaveLeavesIff(sys: System, tree: Tree, leaves: seq<TopoNode>)
    requires OneLeafPerCpu(sys, tree, leaves)
    ensures (forall c: nat :: sys.online(c) ==> HasLeaf(leaves, c)) <==>
      (forall c: nat :: sys.online(c) ==> c < sys.cpuNum)
  {
    forall c: nat | sys.online(c) ensures HasLeaf(leaves, c) <==> c < sys.cpuNum {
      if c < sys.cpuNum {
        assert Online(sys, c);
      }
    }
  }

  // ---- the global tree ----

  /** A chip's mask joins the root's; nodes of other levels do not change it. */
  method WidenRoot(sys: System, root: TopoNode, node: TopoNode, parent: TopoNode, ghost tree: Tree)
    requires root in tree.nodes && root.topotype == ALL && Deduplicated(sys, root, tree)
    requires parent in tree.nodes && node !in tree.nodes && node.topotype + 1 == parent.topotype
    requires Initial(sys, tree) && UnionOfChips(sys, tree, Members(root.mask))
    requires Members(node.mask) == MaskOf(sys, node) && node.loadInfo == TopoLoadInfo(0, 0, 0, 0)
    modifies root`mask
    ensures Initial(sys, Attached(tree, node, parent))
    ensures UnionOfChips(sys, Attached(tree, node, parent), Members(root.mask))
  {
    AttachWidens(sys, tree, Members(root.mask), node, parent);
    if node.topotype == CHIP {
      var mask := new Cpumask.Of(root.mask);
      mask.Or(node.mask);
      root.mask := mask.masks;
    }
  }

  /** The links InitTopo sets to attach a new node. */
  method Link(node: TopoNode, parent: TopoNode, ghost tree: Tree)
    requires Holds(tree) && parent in tree.nodes && node !in tree.nodes && node.topotype + 1 == parent.topotype
    requires node.child == []
    modifies node`parent, parent`child
    ensures Holds(Attached(tree, node, parent))
  {
    node.parent := parent;
    parent.child := parent.child + [node];
  }

  method LinkAndWiden(sys: System, root: TopoNode, node: TopoNode, parent: TopoNode, ghost tree: Tree)
    requires root in tree.nodes && root.topotype == ALL && Deduplicated(sys, root, tree)
    requires Holds(tree) && Initial(sys, tree) && UnionOfChips(sys, tree, Members(root.mask))
    requires parent in tree.nodes && node !in tree.nodes && node.topotype + 1 == parent.topotype
    requires node.child == [] && node.loadInfo == TopoLoadInfo(0, 0, 0, 0) && Members(node.mask) == MaskOf(sys, node)
    modifies node`parent, parent`child, root`mask
    ensures Holds(Attached(tree, node, parent)) && Initial(sys, Attached(tree, node, parent))
    ensures UnionOfChips(sys, Attached(tree, node, parent), Members(root.mask))
  {
    Link(node, parent, tree);
    WidenRoot(sys, root, node, parent, tree);
  }

  /** What the get*Node functions return: a listed node with this CPU's mask, or, when there is
  none on the level, a new node that is not attached yet. */
  ghost predicate Got(sys: System, tree: Tree, lists: seq<seq<TopoNode>>, node: TopoNode, t: TopoType, cpu: int, isNew: bool)
    reads node, tree.nodes`mask
  {
    && |lists| == ALL + 1 && t < ALL && Members(node.mask) == LevelMask(sys, t, cpu)
    && if !isNew then t != CPU && node in lists[t]
       else && node !in tree.nodes && node.topotype == t && node.rep == cpu && node.id == IdOf(sys, t, cpu)
            && node.parent == null && node.child == [] && node.loadInfo == TopoLoadInfo(0, 0, 0, 0)
            && (t != CPU ==> forall n :: n in lists[t] && n in tree.nodes ==> Members(n.mask) != LevelMask(sys, t, cpu))
  }

  /** The node of a CPU on a level, while its chain is being made from the root down. */
  ghost predicate Reached(sys: System, tree: Tree, cpu: int, node: TopoNode, t: int) {
    match tree
    case TreeData(nodes, _, _) =>
      && node in nodes && node.topotype == t
      && (if t < ALL then MaskOf(sys, node) == LevelMask(sys, t, cpu) else true)
      && (if t == CPU then node.id == cpu else NoLeafOf(tree, cpu))
  }

  lemma FoundOrNew(sys: System, root: TopoNode, tree: Tree, lists: seq<seq<TopoNode>>, next: int,
                   t: TopoType, cpu: int, node: TopoNode, isNew: bool)
    requires Built(sys, root, tree, lists, next) && Holds(tree) && Initial(sys, tree)
    requires Got(sys, tree, lists, node, t, cpu, isNew)
    requires t == CPU ==> 0 <= cpu < MASK_BITS && forall n :: n in tree.nodes && n.topotype == CPU ==> n.rep != cpu
    ensures node.topotype == t && MaskOf(sys, node) == LevelMask(sys, t, cpu)
    ensures !isNew ==> node in tree.nodes && node.parent != null
    ensures isNew ==> forall n :: n in lists[t] ==> MaskOf(sys, n) != MaskOf(sys, node)
  {
    if t == CPU {
      assert cpu in MaskOf(sys, node);
    }
  }

  class TopoTree {
    const root: TopoNode
    var typeList: seq<seq<TopoNode>>
    var numaMap: map<int, TopoNode>

    /** The zero value of the global tree. */
    constructor ()
      ensures fresh(root) && root.topotype == ALL && Members(root.mask) == {}
      ensures root.parent == null && root.child == [] && root.loadInfo == TopoLoadInfo(0, 0, 0, 0)
      ensures typeList == [[], [], [], [], [], []] && numaMap == map[]
    {
      var mask := new Cpumask();
      root := new TopoNode(0, ALL, mask.masks, -1);
      typeList := [[], [], [], [], [], []];
      numaMap := map[];
    }

    ghost predicate Valid(sys: System, tree: Tree, next: int)
      reads this, tree.nodes`parent, tree.nodes`child, tree.nodes`loadInfo, tree.nodes`mask
    {
      match tree
      case TreeData(nodes, _, _) =>
        && root in nodes
        && Built(sys, root, tree, typeList, next)
        && Holds(tree)
        && Initial(sys, tree)
        && UnionOfChips(sys, tree, Members(root.mask))
    }

    /** InitTopo's attachment of a new node. */
    method Attach(sys: System, node: TopoNode, parent: TopoNode, next: int, ghost tree: Tree)
      requires Valid(sys, tree, next)
      requires parent in tree.nodes && node !in tree.nodes && node.topotype + 1 == parent.topotype
      requires node.child == [] && node.loadInfo == TopoLoadInfo(0, 0, 0, 0) && node.id == IdOf(sys, node.topotype, node.rep)
      requires Online(sys, node.rep) && node.rep < next && Members(node.mask) == MaskOf(sys, node)
      requires parent.topotype < ALL ==> MaskOf(sys, parent) == LevelMask(sys, parent.topotype, node.rep)
      requires forall n :: n in typeList[node.topotype] ==> MaskOf(sys, n) != MaskOf(sys, node)
      modifies this`typeList, node`parent, parent`child, root`mask
      ensures Valid(sys, Attached(tree, node, parent), next)
      ensures typeList == old(typeList)[node.topotype := old(typeList)[node.topotype] + [node]]
    {
      AttachKeepsBuilt(sys, root, tree, typeList, next, node, parent);
      LinkAndWiden(sys, root, node, parent, tree);
      typeList := typeList[node.topotype := typeList[node.topotype] + [node]];
    }

    method FindTypeTopoNode(t: TopoType, mask: Cpumask) returns (node: TopoNode?)
      requires |typeList| == ALL + 1
      ensures node == null ==> forall n :: n in typeList[t] ==> Members(n.mask) != Members(mask.masks)
      ensures node != null ==> node in typeList[t] && Members(node.mask) == Members(mask.masks)
    {
      for i := 0 to |typeList[t]|
        invariant forall j :: 0 <= j < i ==> Members(typeList[t][j].mask) != Members(mask.masks)
      {
        var equal := IsEqual(typeList[t][i].mask, mask.masks);
        if equal {
          return typeList[t][i];
        }
      }
      return null;
    }

    /** The get*Node functions: the node of the level with this CPU's mask, or a new one, not yet
    attached. A CPU's own node is always new. */
    method GetNode(sys: System, t: TopoType, cpu: int, ghost tree: Tree) returns (node: TopoNode, ghost isNew: bool)
      requires t < ALL && |typeList| == ALL + 1
      modifies this`numaMap
      ensures Got(sys, tree, typeList, node, t, cpu, isNew) && (isNew ==> fresh(node))
      ensures numaMap == if isNew && t == NUMA then old(numaMap)[node.id := node] else old(numaMap)
    {
      isNew := false;
      var mask := GetLevelMask(sys, t, cpu);
      if t != CPU {
        var existNode := FindTypeTopoNode(t, mask);
        if existNode != null {
          return existNode, false;
        }
      }
      var copy := new Cpumask();
      copy.Copy(mask.masks);
      node := new TopoNode(IdOf(sys, t, cpu), t, copy.masks, cpu);
      isNew := true;
      if t == NUMA {
        numaMap := numaMap[node.id := node];
      }
    }

    /** InitTopo attaches a node that has no parent yet. */
    method AttachIfNew(sys: System, node: TopoNode, t: TopoType, cpu: int, parent: TopoNode, next: int,
                       ghost tree: Tree, ghost isNew: bool)
      returns (ghost tree': Tree)
      requires Valid(sys, tree, next) && Online(sys, cpu) && cpu < next
      requires parent in tree.nodes && parent.topotype == t + 1
      requires t + 1 < ALL ==> MaskOf(sys, parent) == LevelMask(sys, t + 1, cpu)
      requires t == CPU ==> cpu < MASK_BITS && forall n :: n in tree.nodes && n.topotype == CPU ==> n.rep != cpu
      requires Got(sys, tree, typeList, node, t, cpu, isNew)
      modifies this`typeList, (if isNew then {node} else {})`parent, parent`child, root`mask
      ensures Valid(sys, tree', next)
      ensures node in tree'.nodes && node.topotype == t && MaskOf(sys, node) == LevelMask(sys, t, cpu)
      ensures tree'.nodes == tree.nodes + {node} && (isNew <==> node !in tree.nodes)
      ensures typeList == if isNew then old(typeList)[t := old(typeList)[t] + [node]] else old(typeList)
    {
      FoundOrNew(sys, root, tree, typeList, next, t, cpu, node, isNew);
      tree' := tree;
      if node.parent == null {
        Attach(sys, node, parent, next, tree);
        tree' := Attached(tree, node, parent);
      }
    }

    /** The map holds the listed NUMA nodes. */
    ghost predicate MapsNuma()
      reads this
    {
      |typeList| == ALL + 1 && numaMap == ById(typeList[NUMA])
    }

    /** One level of InitTopo's loop body: find or make this CPU's node, and attach it if new. */
    method EnsureNode(sys: System, t: TopoType, cpu: int, parent: TopoNode, next: int, ghost tree: Tree)
      returns (node: TopoNode, ghost tree': Tree)
      requires Valid(sys, tree, next) && Online(sys, cpu) && cpu < next && cpu < MASK_BITS && MapsNuma()
      requires t < ALL && Reached(sys, tree, cpu, parent, t + 1)
      modifies this`typeList, this`numaMap, parent`child, root`mask
      ensures Valid(sys, tree', next) && Reached(sys, tree', cpu, node, t) && MapsNuma()
      ensures tree'.nodes == tree.nodes + {node}
      ensures node !in tree.nodes ==> fresh(node)
    {
      ghost var isNew;
      ghost var listed := typeList[NUMA];
      node, isNew := GetNode(sys, t, cpu, tree);
      tree' := AttachIfNew(sys, node, t, cpu, parent, next, tree, isNew);
      ByIdNext(listed, node);
    }

    /** InitTopo's loop body for an online CPU: the chip below the root, the NUMA node below the
    chip, then cluster, core and the CPU itself. */
    method AddCpu(sys: System, cpu: int, ghost tree: Tree) returns (ghost tree': Tree)
      requires Valid(sys, tree, cpu + 1) && Online(sys, cpu) && NoLeafOf(tree, cpu)
      requires cpu < MASK_BITS && MapsNuma()
      modifies this`typeList, this`numaMap, tree.nodes`child, root`mask
      ensures Valid(sys, tree', cpu + 1) && tree.nodes <= tree'.nodes && MapsNuma()
      ensures forall n :: n in tree'.nodes && n !in tree.nodes ==> fresh(n)
      ensures exists l :: l in tree'.nodes && l.topotype == CPU && l.id == cpu
    {
      var node := root;
      tree' := tree;
      for t := ALL downto 0
        invariant Valid(sys, tree', cpu + 1) && tree.nodes <= tree'.nodes && MapsNuma()
        invariant forall n :: n in tree'.nodes && n !in tree.nodes ==> fresh(n)
        invariant Reached(sys, tree', cpu, node, t)
      {
        node, tree' := EnsureNode(sys, t, cpu, node, cpu + 1, tree');
      }
    }

    /** InitTopo's loop over the CPUs; the offline ones are skipped. */
    method AddCpus(sys: System, ghost zero: Tree) returns (ghost tree: Tree)
      requires Valid(sys, zero, 0) && MapsNuma() && forall c :: Online(sys, c) ==> c < MASK_BITS
      modifies this`typeList, this`numaMap, zero.nodes`child, root`mask
      ensures Valid(sys, tree, sys.cpuNum) && Covered(sys, tree, sys.cpuNum) && MapsNuma()
    {
      tree := zero;
      for cpu := 0 to sys.cpuNum
        invariant Valid(sys, tree, cpu) && Covered(sys, tree, cpu) && MapsNuma()
        invariant forall n :: n in tree.nodes ==> n in zero.nodes || fresh(n)
      {
        tree := AddIfOnline(sys, cpu, tree);
      }
    }

    method AddIfOnline(sys: System, cpu: int, ghost tree: Tree) returns (ghost tree': Tree)
      requires Valid(sys, tree, cpu) && Covered(sys, tree, cpu) && MapsNuma()
      requires 0 <= cpu < sys.cpuNum && (Online(sys, cpu) ==> cpu < MASK_BITS)
      modifies this`typeList, this`numaMap, tree.nodes`child, root`mask
      ensures Valid(sys, tree', cpu + 1) && Covered(sys, tree', cpu + 1) && MapsNuma()
      ensures forall n :: n in tree'.nodes && n !in tree.nodes ==> fresh(n)
    {
      tree' := tree;
      BuiltNext(sys, root, tree, typeList, cpu);
      if sys.online(cpu) {
        tree' := AddCpu(sys, cpu, tree);
        CoveredNext(sys, tree, tree', cpu);
      }
    }

    /** Builds the whole tree. The zero tree is what the one call of the program starts from. */
    method InitTopo(sys: System) returns (ghost tree: Tree)
      requires Nested(sys)
      requires root.topotype == ALL && root.parent == null && root.child == [] && Members(root.mask) == {}
      requires root.loadInfo == TopoLoadInfo(0, 0, 0, 0) && typeList == [[], [], [], [], [], []]
      modifies this`typeList, this`numaMap, root
      ensures |typeList| == ALL + 1 && Holds(tree) && root in tree.nodes
      ensures OneLeafPerCpu(sys, tree, typeList[CPU]) && ChainsMatch(sys, tree)
      ensures ClassesListed(sys, tree, typeList) && MasksOnce(tree) && LeavesMatchMasks(tree)
      ensures Aggregated(tree, typeList[CPU]) && IdsMeant(sys, tree)
      ensures FindsNumaNodes(sys, tree, numaMap) <==> IdsMatch(sys)
    {
      tree := BuildTree(sys);
      Finished(sys, root, tree, typeList);
      if IdsMatch(sys) {
        FinishedMap(sys, root, tree, typeList);
      }
      if FindsNumaNodes(sys, tree, numaMap) {
        FoundNeedsMatch(sys, root, tree, typeList);
        LeavesMatchForAll(sys, tree);
      }
    }

    /** The tree of the root alone, and then all CPUs. */
    method BuildTree(sys: System) returns (ghost tree: Tree)
      requires forall c :: Online(sys, c) ==> c in LevelMask(sys, CPU, c)
      requires root.topotype == ALL && root.parent == null && root.child == [] && Members(root.mask) == {}
      requires root.loadInfo == TopoLoadInfo(0, 0, 0, 0) && typeList == [[], [], [], [], [], []]
      modifies this`typeList, this`numaMap, root
      ensures Valid(sys, tree, sys.cpuNum) && Covered(sys, tree, sys.cpuNum) && MapsNuma()
    {
      typeList := typeList[ALL := typeList[ALL] + [root]];
      assert typeList[ALL] == [root];
      numaMap := map[];
      ZeroValid(sys);
      tree := AddCpus(sys, TreeData({root}, map[], map[root := []]));
    }

    lemma ZeroValid(sys: System)
      requires root.topotype == ALL && root.parent == null && root.child == [] && Members(root.mask) == {}
      requires root.loadInfo == TopoLoadInfo(0, 0, 0, 0) && typeList == [[], [], [], [], [], [root]]
      ensures Valid(sys, TreeData({root}, map[], map[root := []]), 0)
    {
    }
  }
}
