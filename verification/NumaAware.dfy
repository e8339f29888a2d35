/** The NUMA-aware binding plugin (common/schedule/plugins/numaaware/numaaware.go): which CPU each
task gets, and how CPUs that serve network interrupts are avoided. */
module NumaAware {
  import opened Words
  import opened Prelude
  import opened Topology

  class BindTaskInfo {
    const pid: nat
    var node: TopoNode

    constructor (pid: nat, node: TopoNode)
      ensures this.pid == pid && this.node == node
    {
      this.pid, this.node := pid, node;
    }
  }

  ghost function NodesOf(tasks: seq<BindTaskInfo>): (nodes: seq<TopoNode>)
    reads tasks
    ensures |nodes| == |tasks| && forall k :: 0 <= k < |tasks| ==> nodes[k] == tasks[k].node
  {
    if tasks == [] then [] else NodesOf(tasks[..|tasks| - 1]) + [tasks[|tasks| - 1].node]
  }

  // ---- first fit with a budget of interrupt CPUs ----

  predicate IsIrq(node: TopoNode, irq: set<int>) {
    node.id in irq
  }

  /** The CPUs a first-fit scan takes, in order, when it may take `limit` interrupt CPUs. */
  ghost function Usable(cpus: seq<TopoNode>, irq: set<int>, limit: int): seq<TopoNode> {
    if cpus == [] then []
    else
      var n := cpus[|cpus| - 1];
      var rest := Usable(cpus[..|cpus| - 1], irq, limit);
      if !IsIrq(n, irq) || IrqCount(rest, irq) < limit then rest + [n] else rest
  }

  ghost function IrqCount(s: seq<TopoNode>, irq: set<int>): nat {
    if s == [] then 0 else IrqCount(s[..|s| - 1], irq) + (if IsIrq(s[|s| - 1], irq) then 1 else 0)
  }

  /** Distinct nodes with distinct CPU numbers. */
  ghost predicate DistinctIds(s: seq<TopoNode>) {
    forall i, j :: 0 <= i < j < |s| ==> s[i].id != s[j].id
  }

  /** The nodes the scan takes are distinct members of the list, and respect the budget. */
  lemma {:induction false} UsableFits(cpus: seq<TopoNode>, irq: set<int>, limit: int)
    requires DistinctIds(cpus)
    ensures DistinctIds(Usable(cpus, irq, limit))
    ensures forall n :: n in Usable(cpus, irq, limit) ==> n in cpus
    ensures IrqCount(Usable(cpus, irq, limit), irq) <= (if limit > 0 then limit else 0)
  {
    if cpus != [] {
      var front, n := cpus[..|cpus| - 1], cpus[|cpus| - 1];
      var rest := Usable(front, irq, limit);
      UsableFits(front, irq, limit);
      assert (rest + [n])[..|rest|] == rest;
      forall i | 0 <= i < |rest| ensures rest[i].id != n.id {
        assert rest[i] in front;
      }
    }
  }

  /** How many nodes the scan finds: all that are not interrupt CPUs, and interrupt CPUs up to the
  budget. */
  lemma {:induction false} UsableCount(cpus: seq<TopoNode>, irq: set<int>, limit: int)
    ensures |Usable(cpus, irq, limit)| == |cpus| - IrqCount(cpus, irq) + IrqCount(Usable(cpus, irq, limit), irq)
    ensures IrqCount(Usable(cpus, irq, limit), irq) ==
              if limit <= 0 then 0 else if limit <= IrqCount(cpus, irq) then limit else IrqCount(cpus, irq)
  {
    if cpus != [] {
      var front, n := cpus[..|cpus| - 1], cpus[|cpus| - 1];
      var rest := Usable(front, irq, limit);
      UsableCount(front, irq, limit);
      assert (rest + [n])[..|rest|] == rest;
    }
  }

  /** Distinct CPUs include at most as many interrupt CPUs as there are. */
  lemma {:induction false} IrqCountBound(s: seq<TopoNode>, irq: set<int>)
    requires DistinctIds(s)
    ensures IrqCount(s, irq) <= |irq|
  {
    if s != [] {
      var front, n := s[..|s| - 1], s[|s| - 1];
      if IsIrq(n, irq) {
        IrqCountBound(front, irq - {n.id});
        SameCount(front, irq, irq - {n.id});
      } else {
        IrqCountBound(front, irq);
      }
    }
  }

  lemma {:induction false} SameCount(s: seq<TopoNode>, a: set<int>, b: set<int>)
    requires forall n :: n in s ==> (IsIrq(n, a) <==> IsIrq(n, b))
    ensures IrqCount(s, a) == IrqCount(s, b)
  {
    if s != [] {
      SameCount(s[..|s| - 1], a, b);
    }
  }

  /** A scan whose budget makes up for the missing ordinary CPUs finds a CPU for every task. */
  lemma EnoughUsable(cpus: seq<TopoNode>, irq: set<int>, tasks: nat, limit: int)
    requires DistinctIds(cpus)
    requires limit >= tasks + |irq| - |cpus|
    requires tasks <= |cpus|
    ensures |Usable(cpus, irq, limit)| >= tasks
  {
    UsableCount(cpus, irq, limit);
    IrqCountBound(cpus, irq);
  }

  lemma {:induction false} PrefixCount(s: seq<TopoNode>, k: nat, irq: set<int>)
    requires k <= |s|
    ensures IrqCount(s[..k], irq) <= IrqCount(s, irq)
  {
    if k < |s| {
      PrefixCount(s[..|s| - 1], k, irq);
      assert s[..|s| - 1][..k] == s[..k];
    } else {
      assert s[..k] == s;
    }
  }

  /** No way of giving the tasks distinct CPUs of the list uses fewer interrupt CPUs than the
  tasks exceed the ordinary CPUs. */
  lemma AnyPlacementNeeds(cpus: seq<TopoNode>, irq: set<int>, placed: seq<TopoNode>)
    requires DistinctIds(cpus) && DistinctIds(placed) && forall n :: n in placed ==> n in cpus
    ensures IrqCount(placed, irq) >= |placed| + IrqCount(cpus, irq) - |cpus|
  {
    var ordinary := set n | n in cpus && !IsIrq(n, irq);
    OrdinaryCount(cpus, irq);
    OrdinaryCount(placed, irq);
    var used := set n | n in placed && !IsIrq(n, irq);
    assert used <= ordinary;
    SubsetSize(used, ordinary);
  }

  lemma {:induction false} OrdinaryCount(s: seq<TopoNode>, irq: set<int>)
    requires DistinctIds(s)
    ensures |set n | n in s && !IsIrq(n, irq)| == |s| - IrqCount(s, irq)
  {
    if s != [] {
      var front, n := s[..|s| - 1], s[|s| - 1];
      OrdinaryCount(front, irq);
      assert s == front + [n] && n !in front;
      OrdinaryNext(front, n, irq);
    }
  }

  lemma OrdinaryNext(front: seq<TopoNode>, n: TopoNode, irq: set<int>)
    requires n !in front
    ensures |set m | m in front + [n] && !IsIrq(m, irq)|
         == |set m | m in front && !IsIrq(m, irq)| + if IsIrq(n, irq) then 0 else 1
  {
    var some, all := set m | m in front && !IsIrq(m, irq), set m | m in front + [n] && !IsIrq(m, irq);
    assert all == if IsIrq(n, irq) then some else some + {n};
  }

  lemma SubsetSize<T>(a: set<T>, b: set<T>)
    requires a <= b
    ensures |a| <= |b|
  {
    assert b == a + (b - a);
  }

  lemma {:induction false} UsablePrefix(cpus: seq<TopoNode>, i: nat, irq: set<int>, limit: int)
    requires i <= |cpus|
    ensures Usable(cpus[..i], irq, limit) <= Usable(cpus, irq, limit)
  {
    if i < |cpus| {
      UsablePrefix(cpus[..|cpus| - 1], i, irq, limit);
      assert cpus[..|cpus| - 1][..i] == cpus[..i];
    } else {
      assert cpus[..i] == cpus;
    }
  }

  // ---- what a placement is worth ----

  /** Every task has a CPU of the list, no two the same one, and at most `allowed` of them serve
  interrupts. */
  ghost predicate GoodPlacement(nodes: seq<TopoNode>, cpus: seq<TopoNode>, irq: set<int>, allowed: int) {
    DistinctIds(nodes) && (forall n :: n in nodes ==> n in cpus) && IrqCount(nodes, irq) <= allowed
  }

  /** bindTaskSharedIrq on no more tasks than CPUs. */
  lemma SharedPlacement(before: seq<TopoNode>, cpus: seq<TopoNode>, irq: set<int>)
    requires DistinctIds(cpus) && |before| <= |cpus|
    ensures var allowed := if |before| + |irq| > |cpus| then |before| + |irq| - |cpus| else 0;
      GoodPlacement(Placed(before, Usable(cpus, irq, SharedLimit(|before|, |irq|, |cpus|))), cpus, irq, allowed)
  {
    ScanPlacement(before, cpus, irq, SharedLimit(|before|, |irq|, |cpus|));
  }

  /** bindTaskNoSharedIrq when the ordinary CPUs suffice. */
  lemma ExclusivePlacement(before: seq<TopoNode>, cpus: seq<TopoNode>, irq: set<int>)
    requires DistinctIds(cpus) && |before| + |irq| <= |cpus|
    ensures GoodPlacement(Placed(before, Usable(cpus, irq, 0)), cpus, irq, 0)
  {
    ScanPlacement(before, cpus, irq, 0);
  }

  lemma ScanPlacement(before: seq<TopoNode>, cpus: seq<TopoNode>, irq: set<int>, limit: int)
    requires DistinctIds(cpus) && |before| <= |cpus| && limit >= |before| + |irq| - |cpus|
    ensures GoodPlacement(Placed(before, Usable(cpus, irq, limit)), cpus, irq, if limit > 0 then limit else 0)
  {
    var taken := Usable(cpus, irq, limit);
    UsableFits(cpus, irq, limit);
    EnoughUsable(cpus, irq, |before|, limit);
    PrefixCount(taken, |before|, irq);
    assert Placed(before, taken) == taken[..|before|];
  }

  /** No placement on distinct CPUs of the list uses fewer interrupt CPUs than bindTaskSharedIrq,
  when all interrupt CPUs are in the list. */
  lemma SharedPlacementIsOptimal(before: seq<TopoNode>, cpus: seq<TopoNode>, irq: set<int>, placed: seq<TopoNode>)
    requires DistinctIds(cpus) && |before| <= |cpus|
    requires forall c :: c in irq ==> exists n :: n in cpus && n.id == c
    requires |placed| == |before| && DistinctIds(placed) && forall n :: n in placed ==> n in cpus
    ensures IrqCount(Placed(before, Usable(cpus, irq, SharedLimit(|before|, |irq|, |cpus|))), irq) <= IrqCount(placed, irq)
  {
    SharedPlacement(before, cpus, irq);
    AnyPlacementNeeds(cpus, irq, placed);
    AllIrqListed(cpus, irq);
  }

  lemma {:induction false} AllIrqListed(cpus: seq<TopoNode>, irq: set<int>)
    requires DistinctIds(cpus) && forall c :: c in irq ==> exists n :: n in cpus && n.id == c
    ensures IrqCount(cpus, irq) == |irq|
  {
    if cpus == [] {
      assert forall c :: c !in irq;
    } else {
      var front, n := cpus[..|cpus| - 1], cpus[|cpus| - 1];
      assert cpus == front + [n];
      forall c | c in irq - {n.id} ensures exists m :: m in front && m.id == c {
        var m :| m in cpus && m.id == c;
        assert m in front;
      }
      AllIrqListed(front, irq - {n.id});
      SameCount(front, irq, irq - {n.id});
      assert IsIrq(n, irq) ==> irq == (irq - {n.id}) + {n.id};
      assert !IsIrq(n, irq) ==> irq == irq - {n.id};
    }
  }

  ghost predicate LeafIdsDistinct(tree: Tree) {
    forall k, l :: k in tree.nodes && l in tree.nodes && k.topotype == l.topotype == CPU && k.id == l.id ==> k == l
  }

  lemma CpuListIdsDistinct(tree: Tree, top: TopoNode)
    requires top in tree.nodes && LeafIdsDistinct(tree)
    ensures DistinctIds(CpuList(tree, top))
  {
    CpuListIsLeaves(tree, top);
    var s := CpuList(tree, top);
    forall i, j | 0 <= i < j < |s| ensures s[i].id != s[j].id {
      assert s[i] in Leaves(tree, top) && s[j] in Leaves(tree, top);
    }
  }

  lemma SharedBelow(tree: Tree, top: TopoNode, before: seq<TopoNode>, irq: set<int>)
    requires top in tree.nodes
    ensures var cpus := CpuList(tree, top);
      LeafIdsDistinct(tree) && |before| <= |cpus| <= |before| + |irq| ==>
        GoodPlacement(Placed(before, Usable(cpus, irq, SharedLimit(|before|, |irq|, |cpus|))), cpus, irq,
                      |before| + |irq| - |cpus|)
  {
    if LeafIdsDistinct(tree) && |before| <= |CpuList(tree, top)| {
      CpuListIdsDistinct(tree, top);
      SharedPlacement(before, CpuList(tree, top), irq);
    }
  }

  lemma ExclusiveBelow(tree: Tree, top: TopoNode, before: seq<TopoNode>, irq: set<int>)
    requires top in tree.nodes
    ensures var cpus := CpuList(tree, top);
      LeafIdsDistinct(tree) && |before| + |irq| <= |cpus| ==>
        GoodPlacement(Placed(before, Usable(cpus, irq, 0)), cpus, irq, 0)
  {
    if LeafIdsDistinct(tree) && |before| + |irq| <= |CpuList(tree, top)| {
      CpuListIdsDistinct(tree, top);
      ExclusivePlacement(before, CpuList(tree, top), irq);
    }
  }

  // ---- the plugin ----

  /** One step of the scan. */
  lemma UsableStep(cpus: seq<TopoNode>, i: nat, irq: set<int>, limit: int)
    requires i < |cpus|
    ensures var before, after := Usable(cpus[..i], irq, limit), Usable(cpus[..i + 1], irq, limit);
      if !IsIrq(cpus[i], irq) || IrqCount(before, irq) < limit
      then after == before + [cpus[i]] && IrqCount(after, irq) == IrqCount(before, irq) + (if IsIrq(cpus[i], irq) then 1 else 0)
      else after == before
  {
    assert cpus[..i + 1][..i] == cpus[..i];
    var before := Usable(cpus[..i], irq, limit);
    assert (before + [cpus[i]])[..|before|] == before;
  }

  /** Giving out the CPUs of `taken` in order; the tasks beyond keep their node. */
  ghost function Placed(nodes: seq<TopoNode>, taken: seq<TopoNode>): (r: seq<TopoNode>)
    ensures |r| == |nodes|
    ensures forall k :: 0 <= k < |nodes| ==> r[k] == if k < |taken| then taken[k] else nodes[k]
  {
    if |taken| >= |nodes| then taken[..|nodes|] else taken + nodes[|taken|..]
  }

  /** The counters of the scan and the tasks' nodes. */
  datatype Progress = Progress(now: seq<TopoNode>, index: nat, common: nat)

  /** After `i` nodes of the list, `index` tasks have a CPU, `common` of them an interrupt CPU. */
  ghost predicate Scanned(cpus: seq<TopoNode>, i: nat, irq: set<int>, limit: int, before: seq<TopoNode>, p: Progress)
    requires i <= |cpus|
  {
    match p
    case Progress(now, index, common) =>
      var taken := Usable(cpus[..i], irq, limit);
      index == |taken| <= |before| && common == IrqCount(taken, irq) && now == Placed(before, taken)
  }

  /** What looking at one more node must do. */
  function Stepped(p: Progress, node: TopoNode, irq: set<int>, limit: int): Progress
    requires p.index < |p.now|
  {
    if !IsIrq(node, irq) then Progress(p.now[p.index := node], p.index + 1, p.common)
    else if p.common < limit then Progress(p.now[p.index := node], p.index + 1, p.common + 1)
    else p
  }

  lemma ScanStep(cpus: seq<TopoNode>, i: nat, irq: set<int>, limit: int, before: seq<TopoNode>, p: Progress)
    requires i < |cpus| && Scanned(cpus, i, irq, limit, before, p) && p.index < |before|
    ensures |p.now| == |before| && Scanned(cpus, i + 1, irq, limit, before, Stepped(p, cpus[i], irq, limit))
  {
    UsableStep(cpus, i, irq, limit);
  }

  /** Once every task has a CPU, or the list is exhausted, the placement is complete. */
  lemma ScanEnd(cpus: seq<TopoNode>, i: nat, irq: set<int>, limit: int, before: seq<TopoNode>, p: Progress)
    requires i <= |cpus| && Scanned(cpus, i, irq, limit, before, p) && (p.index >= |before| || i == |cpus|)
    ensures p.now == Placed(before, Usable(cpus, irq, limit))
  {
    UsablePrefix(cpus, i, irq, limit);
    assert i == |cpus| ==> cpus[..i] == cpus;
  }

  method Assign(tasks: seq<BindTaskInfo>, index: nat, node: TopoNode)
    requires NoDuplicates(tasks) && index < |tasks|
    modifies tasks`node
    ensures NodesOf(tasks) == old(NodesOf(tasks))[index := node]
  {
    tasks[index].node := node;
  }

  ghost function CpusOf(tree: Tree, numaNode: TopoNode, t: TopoType): seq<TopoNode>
    requires numaNode in tree.nodes && numaNode.topotype <= t
  {
    CpuList(tree, Ancestor(tree, numaNode, t))
  }

  function SharedLimit(tasks: nat, irqCpus: nat, cpus: nat): int {
    tasks + irqCpus - cpus
  }

  /** The loop of bindTaskSharedIrq. */
  method GiveCpus(cpuNodes: seq<TopoNode>, irq: set<int>, tasks: seq<BindTaskInfo>, cpuNodesWithIrq: int)
    requires NoDuplicates(tasks)
    modifies tasks`node
    ensures NodesOf(tasks) == Placed(old(NodesOf(tasks)), Usable(cpuNodes, irq, cpuNodesWithIrq))
  {
    var index, commonNum := 0, 0;
    ghost var before, p := NodesOf(tasks), Progress(NodesOf(tasks), 0, 0);
    for i := 0 to |cpuNodes|
      invariant p == Progress(NodesOf(tasks), index, commonNum)
      invariant Scanned(cpuNodes, i, irq, cpuNodesWithIrq, before, p)
    {
      if index >= |tasks| {
        ScanEnd(cpuNodes, i, irq, cpuNodesWithIrq, before, p);
        return;
      }
      ScanStep(cpuNodes, i, irq, cpuNodesWithIrq, before, p);
      p := Stepped(p, cpuNodes[i], irq, cpuNodesWithIrq);
      var node := cpuNodes[i];
      if node.id !in irq {
        Assign(tasks, index, node);
        index := index + 1;
      } else if commonNum < cpuNodesWithIrq {
        Assign(tasks, index, node);
        index := index + 1;
        commonNum := commonNum + 1;
      }
    }
    ScanEnd(cpuNodes, |cpuNodes|, irq, cpuNodesWithIrq, before, p);
  }

  /** The loop of bindTaskNoSharedIrq. */
  method GiveOrdinaryCpus(cpuNodes: seq<TopoNode>, irq: set<int>, tasks: seq<BindTaskInfo>)
    requires NoDuplicates(tasks)
    modifies tasks`node
    ensures NodesOf(tasks) == Placed(old(NodesOf(tasks)), Usable(cpuNodes, irq, 0))
  {
    var index := 0;
    ghost var before, p := NodesOf(tasks), Progress(NodesOf(tasks), 0, 0);
    for i := 0 to |cpuNodes|
      invariant p == Progress(NodesOf(tasks), index, 0)
      invariant Scanned(cpuNodes, i, irq, 0, before, p)
    {
      if index >= |tasks| {
        ScanEnd(cpuNodes, i, irq, 0, before, p);
        return;
      }
      ScanStep(cpuNodes, i, irq, 0, before, p);
      p := Stepped(p, cpuNodes[i], irq, 0);
      var node := cpuNodes[i];
      if node.id in irq {
        continue;
      }
      Assign(tasks, index, node);
      index := index + 1;
    }
    ScanEnd(cpuNodes, |cpuNodes|, irq, 0, before, p);
  }

  /** What the plugin reads from the system: the network device's NUMA node and the number of CPUs
  listed for it, and the two load percentages. */
  datatype Environment = Environment(numaNode: TopoNode, root: TopoNode, cpusForNuma: nat, irqPercent: int, taskPercent: int)

  /** Every CPU of the NUMA node is online, and all NUMA nodes of its chip have as many. */
  ghost predicate Symmetric(tree: Tree, env: Environment)
    requires env.numaNode in tree.nodes && env.numaNode.topotype == NUMA
  {
    && |CpusOf(tree, env.numaNode, NUMA)| == env.cpusForNuma
    && |CpusOf(tree, env.numaNode, CHIP)| == |tree.kids[Ancestor(tree, env.numaNode, CHIP)]| * env.cpusForNuma
  }

  /** With light load the tasks may use interrupt CPUs where the ordinary ones do not suffice. The NUMA
  node is preferred to the chip, and on either of them not to use interrupt CPUs. */
  ghost predicate GoodChoice(tree: Tree, env: Environment, irq: set<int>, nodes: seq<TopoNode>)
    requires env.numaNode in tree.nodes && env.numaNode.topotype == NUMA
  {
    var numa, chip := CpusOf(tree, env.numaNode, NUMA), CpusOf(tree, env.numaNode, CHIP);
    var light, tasks := env.taskPercent + env.irqPercent < 100, |nodes|;
    if tasks + |irq| <= |numa| then GoodPlacement(nodes, numa, irq, 0)
    else if tasks <= |numa| && light then GoodPlacement(nodes, numa, irq, tasks + |irq| - |numa|)
    else if tasks + |irq| <= |chip| then GoodPlacement(nodes, chip, irq, 0)
    else if tasks <= |chip| && light then GoodPlacement(nodes, chip, irq, tasks + |irq| - |chip|)
    else forall n :: n in nodes ==> n == env.root
  }

  /** That many CPUs carry the load at a hundred percent each, with room left besides those that serve
  interrupts. */
  predicate HasRoom(cpus: int, percent: int, irqCpus: nat) {
    100 * (cpus - irqCpus) > percent
  }

  /** The smallest node with room for the load. */
  ghost function HighLoadNode(tree: Tree, env: Environment, irqCpus: nat): TopoNode
    requires env.numaNode in tree.nodes && env.numaNode.topotype == NUMA
  {
    var chip := Ancestor(tree, env.numaNode, CHIP);
    if HasRoom(env.cpusForNuma, env.taskPercent, irqCpus) then env.numaNode
    else if HasRoom(|tree.kids[chip]| * env.cpusForNuma, env.taskPercent, irqCpus) then chip
    else env.root
  }

  /** On symmetric nodes it is the NUMA node, or else the chip, of which the CPUs besides those that serve
  interrupts carry more than the load; else the root. */
  lemma HighLoadNodeIsSmallest(tree: Tree, env: Environment, irqCpus: nat)
    requires env.numaNode in tree.nodes && env.numaNode.topotype == NUMA && Symmetric(tree, env)
    ensures var numa, chip, node := env.numaNode, Ancestor(tree, env.numaNode, CHIP), HighLoadNode(tree, env, irqCpus);
      if (|CpuList(tree, numa)| - irqCpus) * 100 > env.taskPercent then node == numa
      else if (|CpuList(tree, chip)| - irqCpus) * 100 > env.taskPercent then node == chip
      else node == env.root
  {
  }

  /** The threads of the tasks. */
  ghost function ThreadsOf(tasks: seq<BindTaskInfo>, threadsOf: nat -> seq<nat>): set<nat> {
    set k, t | 0 <= k < |tasks| && t in threadsOf(tasks[k].pid) :: t
  }

  lemma ThreadsOfNext(tasks: seq<BindTaskInfo>, threadsOf: nat -> seq<nat>, i: nat)
    requires i < |tasks|
    ensures ThreadsOf(tasks[..i + 1], threadsOf) == ThreadsOf(tasks[..i], threadsOf) + set t | t in threadsOf(tasks[i].pid)
  {
    var more := tasks[..i + 1];
    assert more[i] == tasks[i] && forall k :: 0 <= k < i ==> more[k] == tasks[..i][k];
  }

  ghost function PidsFrom(tasks: seq<BindTaskInfo>, start: nat): set<nat> {
    set k | start <= k < |tasks| :: tasks[k].pid
  }

  lemma PidsFromNext(tasks: seq<BindTaskInfo>, start: nat, task: BindTaskInfo)
    requires start <= |tasks|
    ensures PidsFrom(tasks + [task], start) == PidsFrom(tasks, start) + {task.pid}
  {
    var more := tasks + [task];
    assert more[|tasks|] == task;
    forall k | start <= k < |tasks| ensures more[k] == tasks[k] {
    }
  }

  class NumaAwarePlugin {
    /** CPUs that the network interrupts are bound to. */
    var cpus: set<int>
    /** Threads that already became tasks. */
    var threadTask: set<nat>

    constructor (cpus: set<int>)
      ensures this.cpus == cpus && threadTask == {}
    {
      this.cpus, threadTask := cpus, {};
    }

    method BindTaskSharedIrq(numaNode: TopoNode, tasks: seq<BindTaskInfo>, t: TopoType, ghost tree: Tree)
      requires Holds(tree) && numaNode in tree.nodes && numaNode.topotype <= t
      requires NoDuplicates(tasks)
      modifies tasks`node
      ensures NodesOf(tasks) == Placed(old(NodesOf(tasks)), Usable(CpusOf(tree, numaNode, t), cpus,
                  SharedLimit(|tasks|, |cpus|, |CpusOf(tree, numaNode, t)|)))
      ensures var list := CpusOf(tree, numaNode, t);
        LeafIdsDistinct(tree) && |tasks| <= |list| <= |tasks| + |cpus| ==>
          GoodPlacement(NodesOf(tasks), list, cpus, |tasks| + |cpus| - |list|)
    {
      ghost var before := NodesOf(tasks);
      var p := numaNode.Parent(t, tree);
      var cpuNodes := p.GetAllCpusForNode([], tree);
      assert cpuNodes == CpusOf(tree, numaNode, t);
      var cpuNodesWithIrq := SharedLimit(|tasks|, |cpus|, |cpuNodes|);
      GiveCpus(cpuNodes, cpus, tasks, cpuNodesWithIrq);
      SharedBelow(tree, p, before, cpus);
    }

    method BindTaskNoSharedIrq(numaNode: TopoNode, tasks: seq<BindTaskInfo>, t: TopoType, ghost tree: Tree)
      requires Holds(tree) && numaNode in tree.nodes && numaNode.topotype <= t
      requires NoDuplicates(tasks)
      modifies tasks`node
      ensures NodesOf(tasks) == Placed(old(NodesOf(tasks)), Usable(CpusOf(tree, numaNode, t), cpus, 0))
      ensures var list := CpusOf(tree, numaNode, t);
        LeafIdsDistinct(tree) && |tasks| + |cpus| <= |list| ==> GoodPlacement(NodesOf(tasks), list, cpus, 0)
    {
      ghost var before := NodesOf(tasks);
      var p := numaNode.Parent(t, tree);
      var cpuNodes := p.GetAllCpusForNode([], tree);
      assert cpuNodes == CpusOf(tree, numaNode, t);
      GiveOrdinaryCpus(cpuNodes, cpus, tasks);
      ExclusiveBelow(tree, p, before, cpus);
    }

    /** Under low load with symmetric NUMA nodes every branch but the default gives each task its own
    CPU: each guard implies what its allocator needs. */
    method PickUnderLowLoad(tasks: seq<BindTaskInfo>, env: Environment, ghost tree: Tree)
      requires Holds(tree) && env.numaNode in tree.nodes && env.numaNode.topotype == NUMA
      requires NoDuplicates(tasks) && LeafIdsDistinct(tree)
      modifies tasks`node
      ensures Symmetric(tree, env) ==> GoodChoice(tree, env, cpus, NodesOf(tasks))
    {
      var chip := env.numaNode.Parent(CHIP, tree);
      var numaNum := chip.GetChildSize();
      if |tasks| + |cpus| <= env.cpusForNuma {
        BindTaskNoSharedIrq(env.numaNode, tasks, NUMA, tree);
      } else if |tasks| <= env.cpusForNuma && env.taskPercent + env.irqPercent < 100 {
        BindTaskSharedIrq(env.numaNode, tasks, NUMA, tree);
      } else if |tasks| + |cpus| <= numaNum * env.cpusForNuma {
        BindTaskNoSharedIrq(env.numaNode, tasks, CHIP, tree);
      } else if |tasks| <= numaNum * env.cpusForNuma && env.taskPercent + env.irqPercent < 100 {
        BindTaskSharedIrq(env.numaNode, tasks, CHIP, tree);
      } else {
        SetNodeForTask(tasks, env.root);
      }
    }

    /** Under high load all tasks, their newly found threads included, get one node: the NUMA node or
    chip that has room besides the interrupt CPUs, else the whole system. */
    method PickUnderHighLoad(tasks: seq<BindTaskInfo>, env: Environment, threadsOf: nat -> seq<nat>, ghost tree: Tree)
      returns (all: seq<BindTaskInfo>)
      requires Holds(tree) && env.numaNode in tree.nodes && env.numaNode.topotype == NUMA
      modifies this`threadTask, tasks`node
      ensures tasks <= all && forall k :: |tasks| <= k < |all| ==> fresh(all[k])
      ensures env.taskPercent >= 0 ==> forall k :: 0 <= k < |all| ==> all[k].node == HighLoadNode(tree, env, |cpus|)
      ensures ThreadsOf(tasks, threadsOf) - old(threadTask) == PidsFrom(all, |tasks|)
    {
      all := UpdateTask(tasks, threadsOf, env.root);
      var taskSize := TruncDiv(env.taskPercent, 100) + 1;
      var chip := env.numaNode.Parent(CHIP, tree);
      var numaNum := chip.GetChildSize();
      if taskSize + |cpus| <= env.cpusForNuma {
        SetNodeForTask(all, env.numaNode);
      } else if taskSize + |cpus| <= numaNum * env.cpusForNuma {
        SetNodeForTask(all, chip);
      } else {
        SetNodeForTask(all, env.root);
      }
    }

    /** Up to 110 percent the load counts as low. */
    method PickNodeForTask(tasks: seq<BindTaskInfo>, env: Environment, threadsOf: nat -> seq<nat>, ghost tree: Tree)
      returns (all: seq<BindTaskInfo>)
      requires Holds(tree) && env.numaNode in tree.nodes && env.numaNode.topotype == NUMA
      requires NoDuplicates(tasks) && LeafIdsDistinct(tree)
      modifies this`threadTask, tasks`node
      ensures env.taskPercent <= 110 ==>
        && all == tasks && threadTask == old(threadTask)
        && (Symmetric(tree, env) ==> GoodChoice(tree, env, cpus, NodesOf(tasks)))
      ensures env.taskPercent > 110 ==>
        && tasks <= all && ThreadsOf(tasks, threadsOf) - old(threadTask) == PidsFrom(all, |tasks|)
        && forall k :: 0 <= k < |all| ==> all[k].node == HighLoadNode(tree, env, |cpus|)
    {
      if env.taskPercent <= 110 {
        PickUnderLowLoad(tasks, env, tree);
        all := tasks;
      } else {
        all := PickUnderHighLoad(tasks, env, threadsOf, tree);
      }
    }

    /** Each thread of a task that was not seen before becomes a task of its own, on the root. */
    method UpdateTask(tasks: seq<BindTaskInfo>, threadsOf: nat -> seq<nat>, root: TopoNode) returns (all: seq<BindTaskInfo>)
      modifies this`threadTask
      ensures tasks <= all
      ensures forall k :: |tasks| <= k < |all| ==> fresh(all[k]) && all[k].node == root
      ensures forall j, k :: |tasks| <= j < k < |all| ==> all[j].pid != all[k].pid
      ensures PidsFrom(all, |tasks|) == ThreadsOf(tasks, threadsOf) - old(threadTask)
      ensures threadTask == old(threadTask) + ThreadsOf(tasks, threadsOf)
    {
      all := tasks;
      for i := 0 to |tasks|
        invariant tasks <= all
        invariant forall k :: |tasks| <= k < |all| ==> fresh(all[k]) && all[k].node == root
        invariant forall j, k :: |tasks| <= j < k < |all| ==> all[j].pid != all[k].pid
        invariant PidsFrom(all, |tasks|) == threadTask - old(threadTask)
        invariant threadTask == old(threadTask) + ThreadsOf(tasks[..i], threadsOf)
      {
        all := AddThreads(all, threadsOf(tasks[i].pid), root, |tasks|, old(threadTask));
        ThreadsOfNext(tasks, threadsOf, i);
      }
      assert tasks[..|tasks|] == tasks;
    }

    /** The threads of one task. */
    method AddThreads(tasks: seq<BindTaskInfo>, files: seq<nat>, root: TopoNode,
                      ghost start: nat, ghost before: set<nat>)
      returns (all: seq<BindTaskInfo>)
      requires start <= |tasks| && before <= threadTask && PidsFrom(tasks, start) == threadTask - before
      requires forall j, k :: start <= j < k < |tasks| ==> tasks[j].pid != tasks[k].pid
      modifies this`threadTask
      ensures tasks <= all
      ensures forall k :: |tasks| <= k < |all| ==> fresh(all[k]) && all[k].node == root
      ensures forall j, k :: start <= j < k < |all| ==> all[j].pid != all[k].pid
      ensures PidsFrom(all, start) == threadTask - before
      ensures threadTask == old(threadTask) + set t | t in files
    {
      all := tasks;
      for f := 0 to |files|
        invariant tasks <= all
        invariant forall k :: |tasks| <= k < |all| ==> fresh(all[k]) && all[k].node == root
        invariant forall j, k :: start <= j < k < |all| ==> all[j].pid != all[k].pid
        invariant PidsFrom(all, start) == threadTask - before && before <= threadTask
        invariant threadTask == old(threadTask) + set t | t in files[..f]
      {
        if files[f] in threadTask {
          continue;
        }
        var ti := new BindTaskInfo(files[f], root);
        PidsFromNext(all, start, ti);
        all := all + [ti];
        threadTask := threadTask + {files[f]};
      }
      assert files[..|files|] == files;
    }

    method SetNodeForTask(tasks: seq<BindTaskInfo>, node: TopoNode)
      modifies tasks`node
      ensures forall k :: 0 <= k < |tasks| ==> tasks[k].node == node
    {
      for i := 0 to |tasks|
        invariant forall k :: 0 <= k < i ==> tasks[k].node == node
      {
        tasks[i].node := node;
      }
    }
  }
}