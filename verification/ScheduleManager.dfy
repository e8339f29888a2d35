/** Applying placements (common/schedule/schedule_manager.go, common/sched/sched.go): kernel
affinity masks, the record of bindings, and the periodic load update. */
module ScheduleManager {
  import opened Words
  import opened Cpumasks
  import opened Prelude
  import opened Topology
  import opened NumaAware

  // ---- affinity ----

  const KERNEL_WORDS: nat := 16

  /** The CPUs in a kernel mask of 64-bit words. */
  ghost function KernelMembers(words: seq<Word>): set<int> {
    set b: int | 0 <= b < 64 * |words| && b % 64 in Bits(words[b / 64])
  }

  datatype CpuList = Cpus(list: seq<int>) | Panic

  ghost predicate Ascending(s: seq<int>) {
    forall i, j :: 0 <= i < j < |s| ==> s[i] < s[j]
  }

  /** The loop of setTaskAffinity. It lists a mask's CPUs in ascending order, each once, except
  that bit 639 makes it ask for the word after the last, which panics. */
  method ListCpus(mask: MaskWords) returns (r: CpuList)
    ensures r.Panic? <==> 639 in Members(mask)
    ensures r.Cpus? ==> Ascending(r.list) && (set c | c in r.list) == Members(mask)
  {
    var cpus := [];
    var scan := Foreach(mask, -1);
    var from := 0;
    while scan != Found(-1)
      invariant 0 <= from <= 639
      invariant scan.Found? && IsLeastFrom(Members(mask), from, scan.bit)
      invariant Ascending(cpus) && forall c :: c in cpus <==> c in Members(mask) && c < from
      decreases 640 - from
    {
      var cpu := scan.bit;
      forall i | 0 <= i < |cpus| ensures cpus[i] < cpu {
        assert cpus[i] in cpus;
      }
      cpus := cpus + [cpu];
      scan := Foreach(mask, cpu);
      if scan.IndexPanic? {
        return Panic;
      }
      from := cpu + 1;
    }
    r := Cpus(cpus);
  }

  /** A mask with CPU 639 alone. */
  method LastCpuPanics() returns (r: CpuList)
    ensures r.Panic?
  {
    var mask := new Cpumask();
    mask.Set(639);
    r := ListCpus(mask.masks);
  }

  /** SetAffinity up to the system call: the mask handed to the kernel holds exactly the given
  CPUs. A CPU number from 1024 on would index past the mask. */
  method KernelMask(cpus: seq<int>) returns (mask: array<Word>)
    requires forall c :: c in cpus ==> 0 <= c < 64 * KERNEL_WORDS
    ensures fresh(mask) && mask.Length == KERNEL_WORDS
    ensures KernelMembers(mask[..]) == set c | c in cpus
  {
    mask := new Word[KERNEL_WORDS](_ => 0);
    NoKernelMembers(mask[..]);
    for i := 0 to |cpus|
      invariant KernelMembers(mask[..]) == set c | c in cpus[..i]
    {
      var cpuID := cpus[i];
      assert cpuID in cpus;
      ghost var before := mask[..];
      ShlOneBits(cpuID % 64);
      mask[cpuID / 64] := OrWord(mask[cpuID / 64], ShlOne(cpuID % 64));
      assert mask[..] == before[cpuID / 64 := mask[cpuID / 64]];
      KernelUpdate(before, cpuID, mask[cpuID / 64]);
      assert cpus[..i + 1] == cpus[..i] + [cpuID];
    }
    assert cpus[..|cpus|] == cpus;
  }

  lemma NoKernelMembers(words: seq<Word>)
    requires forall i :: 0 <= i < |words| ==> words[i] == 0
    ensures KernelMembers(words) == {}
  {
    forall b | b in KernelMembers(words) ensures false { ZeroHasNoBit(b % 64); }
  }

  lemma KernelUpdate(words: seq<Word>, cpu: nat, w: Word)
    requires cpu / 64 < |words| && Bits(w) == Bits(words[cpu / 64]) + {cpu % 64}
    ensures KernelMembers(words[cpu / 64 := w]) == KernelMembers(words) + {cpu}
  {
  }

  /** setTaskAffinity: the kernel receives the node's mask unchanged, whenever it can be listed. */
  method SetTaskAffinity(node: TopoNode) returns (ok: bool, mask: array<Word>)
    ensures ok <==> 639 !in Members(node.mask)
    ensures ok ==> fresh(mask) && KernelMembers(mask[..]) == Members(node.mask)
  {
    var cpus := ListCpus(node.mask);
    if cpus.Panic? {
      mask := new Word[0];
      return false, mask;
    }
    assert forall c :: c in cpus.list ==> c in Members(node.mask);
    mask := KernelMask(cpus.list);
    ok := true;
  }

  // ---- the record of bindings ----

  /** The binding map, and each node's bind count. */
  datatype Bindings = Bindings(node: map<nat, TopoNode>, count: map<TopoNode, int>) {
    ghost function Count(n: TopoNode): int {
      if n in count then count[n] else 0
    }
  }

  type Task = (nat, TopoNode)

  /** One round of bindTaskToTopoNode's loop. */
  ghost function BindOne(b: Bindings, task: Task): Bindings {
    var (pid, node) := task;
    if pid in b.node && b.node[pid] == node then b
    else Bindings(b.node[pid := node], b.count[node := b.Count(node) + 1])
  }

  ghost function BindAll(b: Bindings, tasks: seq<Task>): Bindings {
    if tasks == [] then b
    else BindOne(BindAll(b, tasks[..|tasks| - 1]), tasks[|tasks| - 1])
  }

  lemma BindNext(b: Bindings, tasks: seq<Task>, i: nat)
    requires i < |tasks|
    ensures BindAll(b, tasks[..i + 1]) == BindOne(BindAll(b, tasks[..i]), tasks[i])
  {
    assert tasks[..i + 1][..i] == tasks[..i];
  }

  /** How many tasks of a run changed their recorded node to `n`. */
  ghost function MovesTo(b: Bindings, tasks: seq<Task>, n: TopoNode): nat {
    if tasks == [] then 0
    else
      var front, (pid, node) := tasks[..|tasks| - 1], tasks[|tasks| - 1];
      var mid := BindAll(b, front);
      MovesTo(b, front, n) + (if node == n && !(pid in mid.node && mid.node[pid] == node) then 1 else 0)
  }

  /** A node's bind count grows by exactly the number of tasks that moved to it. */
  lemma {:induction false} CountsGrowByMoves(b: Bindings, tasks: seq<Task>, n: TopoNode)
    ensures BindAll(b, tasks).Count(n) == b.Count(n) + MovesTo(b, tasks, n)
  {
    if tasks != [] {
      CountsGrowByMoves(b, tasks[..|tasks| - 1], n);
    }
  }

  ghost function PidsOn(b: Bindings, n: TopoNode): set<nat> {
    set pid | pid in b.node && b.node[pid] == n
  }

  /** No node has fewer binds than pids recorded on it. */
  ghost predicate CountsCover(b: Bindings) {
    b.node.Values <= b.count.Keys && forall n :: n in b.count ==> b.Count(n) >= |PidsOn(b, n)|
  }

  lemma {:induction false} CountsStayCovered(b: Bindings, tasks: seq<Task>)
    requires CountsCover(b)
    ensures CountsCover(BindAll(b, tasks))
  {
    if tasks != [] {
      CountsStayCovered(b, tasks[..|tasks| - 1]);
      BindOneCovered(BindAll(b, tasks[..|tasks| - 1]), tasks[|tasks| - 1]);
    }
  }

  lemma BindOneCovered(b: Bindings, task: Task)
    requires CountsCover(b)
    ensures CountsCover(BindOne(b, task))
  {
    var after := BindOne(b, task);
    if after != b {
      forall n | n in after.count ensures after.Count(n) >= |PidsOn(after, n)| {
        var was := PidsOn(b, n);
        assert n !in b.count ==> was == {} by { assert forall pid :: pid in b.node ==> b.node[pid] in b.node.Values; }
        if n == task.1 {
          assert PidsOn(after, n) == was + {task.0};
        } else {
          assert PidsOn(after, n) == was - {task.0};
        }
      }
    }
  }

  ghost predicate Recorded(b: Bindings, task: Task) {
    task.0 in b.node && b.node[task.0] == task.1
  }

  ghost predicate AllRecorded(b: Bindings, tasks: seq<Task>) {
    forall k :: 0 <= k < |tasks| ==> Recorded(b, tasks[k])
  }

  /** A pid listed several times is listed with one node. */
  ghost predicate Consistent(tasks: seq<Task>) {
    forall i, j :: 0 <= i < |tasks| && 0 <= j < |tasks| && tasks[i].0 == tasks[j].0 ==> tasks[i].1 == tasks[j].1
  }

  /** After a run each of its tasks is recorded exactly if no pid is listed with two nodes. */
  lemma {:induction false} RunRecordsIff(b: Bindings, tasks: seq<Task>)
    ensures AllRecorded(BindAll(b, tasks), tasks) <==> Consistent(tasks)
  {
    if tasks != [] && Consistent(tasks) {
      var front, last := tasks[..|tasks| - 1], tasks[|tasks| - 1];
      RunRecordsIff(b, front);
      assert Recorded(BindAll(b, tasks), last);
      forall k | 0 <= k < |front| ensures Recorded(BindAll(b, tasks), tasks[k]) {
        assert tasks[k] == front[k] && Recorded(BindAll(b, front), front[k]);
      }
    }
  }

  /** A run without moves was over tasks recorded before it. */
  lemma {:induction false} NoMovesAllRecorded(b: Bindings, tasks: seq<Task>)
    requires forall n :: MovesTo(b, tasks, n) == 0
    ensures BindAll(b, tasks) == b && AllRecorded(b, tasks)
  {
    if tasks != [] {
      var front, last := tasks[..|tasks| - 1], tasks[|tasks| - 1];
      forall n ensures MovesTo(b, front, n) == 0 {
        assert MovesTo(b, tasks, n) == 0;
      }
      NoMovesAllRecorded(b, front);
      assert MovesTo(b, tasks, last.1) == 0;
      forall k | 0 <= k < |tasks| ensures Recorded(b, tasks[k]) {
        assert k < |front| ==> tasks[k] == front[k];
      }
    }
  }

  lemma {:induction false} RecordedChangesNothing(b: Bindings, tasks: seq<Task>)
    requires AllRecorded(b, tasks)
    ensures BindAll(b, tasks) == b
  {
    if tasks != [] {
      var front, last := tasks[..|tasks| - 1], tasks[|tasks| - 1];
      forall k | 0 <= k < |front| ensures Recorded(b, front[k]) {
        assert front[k] == tasks[k];
      }
      RecordedChangesNothing(b, front);
      assert Recorded(b, last);
    }
  }

  /** A run leaves the record and every count as they were exactly if all its tasks were recorded. */
  lemma IdleIffRecorded(b: Bindings, tasks: seq<Task>)
    ensures BindAll(b, tasks) == b <==> AllRecorded(b, tasks)
  {
    if AllRecorded(b, tasks) {
      RecordedChangesNothing(b, tasks);
    }
    if BindAll(b, tasks) == b {
      forall n ensures MovesTo(b, tasks, n) == 0 {
        CountsGrowByMoves(b, tasks, n);
      }
      NoMovesAllRecorded(b, tasks);
    }
  }

  /** Binding the same tasks again changes nothing exactly if no pid is listed with two nodes. */
  lemma RebindingIsIdleIff(b: Bindings, tasks: seq<Task>)
    ensures BindAll(BindAll(b, tasks), tasks) == BindAll(b, tasks) <==> Consistent(tasks)
  {
    IdleIffRecorded(BindAll(b, tasks), tasks);
    RunRecordsIff(b, tasks);
  }

  lemma {:induction false} NotListedStays(b: Bindings, tasks: seq<Task>, pid: nat)
    requires forall k :: 0 <= k < |tasks| ==> tasks[k].0 != pid
    ensures var after := BindAll(b, tasks); (pid in after.node <==> pid in b.node)
                                            && (pid in b.node ==> after.node[pid] == b.node[pid])
  {
    if tasks != [] {
      NotListedStays(b, tasks[..|tasks| - 1], pid);
    }
  }

  lemma PidsAfter(b: Bindings, task: Task, n: TopoNode)
    ensures PidsOn(BindOne(b, task), n) == if task.1 == n then PidsOn(b, n) + {task.0} else PidsOn(b, n) - {task.0}
  {
  }

  lemma OneMore<T>(a: set<T>, b: set<T>, x: T)
    requires x !in a && x !in b
    ensures |a + {x} - b| == |a - b| + 1
  {
    assert a + {x} - b == (a - b) + {x};
  }

  /** A task that is not recorded and has the node it had at first. */
  lemma NewPidIsCounted(b: Bindings, mid: Bindings, task: Task, n: TopoNode)
    requires !Recorded(mid, task) && (task.0 in mid.node <==> task.0 in b.node)
    requires task.0 in b.node ==> mid.node[task.0] == b.node[task.0]
    ensures BindOne(mid, task).Count(n) == mid.Count(n) + if task.1 == n then 1 else 0
    ensures |PidsOn(BindOne(mid, task), n) - PidsOn(b, n)|
         == |PidsOn(mid, n) - PidsOn(b, n)| + if task.1 == n then 1 else 0
  {
    PidsAfter(mid, task, n);
    if task.1 == n {
      OneMore(PidsOn(mid, n), PidsOn(b, n), task.0);
    } else {
      assert PidsOn(mid, n) - {task.0} - PidsOn(b, n) == PidsOn(mid, n) - PidsOn(b, n);
    }
  }

  lemma {:induction false} LastUnlisted(b: Bindings, tasks: seq<Task>, last: Task)
    requires Consistent(tasks + [last]) && !Recorded(BindAll(b, tasks), last)
    ensures forall k :: 0 <= k < |tasks| ==> tasks[k].0 != last.0
  {
    assert Consistent(tasks) by {
      assert forall k :: 0 <= k < |tasks| ==> tasks[k] == (tasks + [last])[k];
    }
    RunRecordsIff(b, tasks);
    forall k | 0 <= k < |tasks| ensures tasks[k].0 != last.0 {
      assert Recorded(BindAll(b, tasks), tasks[k]);
      assert tasks[k] == (tasks + [last])[k] && (tasks + [last])[|tasks|] == last;
    }
  }

  /** If no pid is listed with two nodes, a node's count grows by one for each pid that is new on it. */
  lemma {:induction false} NewPidsAreCounted(b: Bindings, tasks: seq<Task>, n: TopoNode)
    requires Consistent(tasks)
    ensures BindAll(b, tasks).Count(n) == b.Count(n) + |PidsOn(BindAll(b, tasks), n) - PidsOn(b, n)|
  {
    if tasks == [] {
      assert PidsOn(b, n) - PidsOn(b, n) == {};
    } else {
      var front, last := tasks[..|tasks| - 1], tasks[|tasks| - 1];
      NewPidsAreCounted(b, front, n);
      if !Recorded(BindAll(b, front), last) {
        assert tasks == front + [last];
        LastUnlisted(b, front, last);
        NotListedStays(b, front, last.0);
        NewPidIsCounted(b, BindAll(b, front), last, n);
      }
    }
  }

  /** From the start, then, the counts are the numbers of pids recorded. */
  lemma CountsFromStart(tasks: seq<Task>, n: TopoNode)
    requires Consistent(tasks)
    ensures var after := BindAll(Bindings(map[], map[]), tasks); after.Count(n) == |PidsOn(after, n)|
  {
    var start := Bindings(map[], map[]);
    NewPidsAreCounted(start, tasks, n);
    assert PidsOn(start, n) == {};
    assert PidsOn(BindAll(start, tasks), n) - {} == PidsOn(BindAll(start, tasks), n);
  }

  /** With a pid listed twice on different nodes, every call binds both again. */
  lemma DuplicatePidRebinds(b: Bindings, pid: nat, m: TopoNode, n: TopoNode)
    requires m != n
    requires pid in b.node && b.node[pid] == n
    ensures BindAll(b, [(pid, m), (pid, n)]).Count(m) == b.Count(m) + 1
    ensures BindAll(b, [(pid, m), (pid, n)]).Count(n) == b.Count(n) + 1
  {
    var tasks := [(pid, m), (pid, n)];
    assert tasks[..1] == [(pid, m)];
    assert BindAll(b, tasks[..1]) == BindOne(b, (pid, m));
  }

  ghost function TasksOf(tasks: seq<BindTaskInfo>): (r: seq<Task>)
    reads tasks
    ensures |r| == |tasks| && forall k :: 0 <= k < |tasks| ==> r[k] == (tasks[k].pid, tasks[k].node)
  {
    if tasks == [] then [] else TasksOf(tasks[..|tasks| - 1]) + [(tasks[|tasks| - 1].pid, tasks[|tasks| - 1].node)]
  }

  ghost function CountsOf(nodes: set<TopoNode>): map<TopoNode, int>
    reads nodes`loadInfo
  {
    map n | n in nodes :: n.loadInfo.bindCount
  }

  twostate predicate OnlyBindsChanged(nodes: set<TopoNode>)
    reads nodes`loadInfo
  {
    forall n :: n in nodes ==> n.loadInfo == old(n.loadInfo).(bindCount := n.loadInfo.bindCount)
  }

  class Binder {
    var bindTaskMap: map<nat, TopoNode>

    constructor ()
      ensures bindTaskMap == map[]
    {
      bindTaskMap := map[];
    }

    /** The task is bound exactly if binding it would change neither the record nor a count. */
    method IsThreadBind(ti: BindTaskInfo) returns (bound: bool)
      ensures forall count ::
        bound <==> BindOne(Bindings(bindTaskMap, count), (ti.pid, ti.node)) == Bindings(bindTaskMap, count)
    {
      bound := ti.pid in bindTaskMap && bindTaskMap[ti.pid] == ti.node;
    }

    /** Binds each task whose recorded node changed. A node whose mask holds bit 639 would panic. */
    method BindTaskToTopoNode(tasks: seq<BindTaskInfo>, ghost nodes: set<TopoNode>)
      requires forall k :: 0 <= k < |tasks| ==> tasks[k].node in nodes && 639 !in Members(tasks[k].node.mask)
      modifies this, nodes`loadInfo
      ensures Bindings(bindTaskMap, CountsOf(nodes))
           == BindAll(Bindings(old(bindTaskMap), old(CountsOf(nodes))), TasksOf(tasks))
      ensures OnlyBindsChanged(nodes)
    {
      ghost var start, list := Bindings(bindTaskMap, CountsOf(nodes)), TasksOf(tasks);
      for i := 0 to |tasks|
        invariant Bindings(bindTaskMap, CountsOf(nodes)) == BindAll(start, list[..i])
        invariant OnlyBindsChanged(nodes)
      {
        BindNext(start, list, i);
        BindTask(tasks[i], nodes);
      }
      assert list[..|tasks|] == list;
    }

    method BindTask(ti: BindTaskInfo, ghost nodes: set<TopoNode>)
      requires ti.node in nodes && 639 !in Members(ti.node.mask)
      modifies this, nodes`loadInfo
      ensures Bindings(bindTaskMap, CountsOf(nodes))
           == BindOne(Bindings(old(bindTaskMap), old(CountsOf(nodes))), (ti.pid, ti.node))
      ensures OnlyBindsChanged(nodes)
    {
      var bound := IsThreadBind(ti);
      if bound {
        return;
      }
      var ok, mask := SetTaskAffinity(ti.node);
      bindTaskMap := bindTaskMap[ti.pid := ti.node];
      ti.node.AddBind();
    }
  }

  // ---- the periodic load update ----

  /** One CPU's load, idle and irq time. */
  type Sample = (int, Counter) -> int

  /** updateNodeLoad: every leaf takes its CPU's sample, and every other node becomes the sum of the
  samples of the CPUs below it. */
  method UpdateNodeLoad(sample: Sample, cpuList: seq<TopoNode>, ghost tree: Tree)
    requires Holds(tree) && ListsLeaves(tree.nodes, cpuList) && Aggregated(tree, cpuList)
    modifies tree.nodes`loadInfo
    ensures Aggregated(tree, cpuList)
    ensures forall l, c :: l in cpuList ==> l.loadInfo.Get(c) == sample(l.id, c)
    ensures forall n, c :: n in tree.nodes ==> n.loadInfo.Get(c) == SampleSum(tree, cpuList, n, sample, c)
  {
    for i := 0 to |cpuList|
      invariant Aggregated(tree, cpuList)
      invariant Sampled(cpuList[..i], sample)
    {
      assert cpuList[..i + 1] == cpuList[..i] + [cpuList[i]];
      UpdateLeaf(cpuList[i], sample, i, cpuList, tree);
    }
    assert cpuList[..|cpuList|] == cpuList;
    forall n, c | n in tree.nodes ensures n.loadInfo.Get(c) == SampleSum(tree, cpuList, n, sample, c) {
      SumOfSamples(tree, cpuList, n, sample, c, ValuesOf(Snapshot(tree.nodes), c));
    }
  }

  ghost predicate Sampled(leaves: seq<TopoNode>, sample: Sample)
    reads set l | l in leaves :: l
  {
    forall l, c :: l in leaves ==> l.loadInfo.Get(c) == sample(l.id, c)
  }

  /** The update callback on one CPU node. */
  method UpdateLeaf(node: TopoNode, sample: Sample, i: nat, ghost cpuList: seq<TopoNode>, ghost tree: Tree)
    requires Holds(tree) && ListsLeaves(tree.nodes, cpuList) && Aggregated(tree, cpuList)
    requires i < |cpuList| && node == cpuList[i] && Sampled(cpuList[..i], sample)
    modifies tree.nodes`loadInfo
    ensures Aggregated(tree, cpuList) && Sampled(cpuList[..i], sample)
    ensures forall c :: node.loadInfo.Get(c) == sample(node.id, c)
  {
    SetSample(node, Load, sample, i, cpuList, tree);
    SetSample(node, Idle, sample, i, cpuList, tree);
    SetSample(node, Irq, sample, i, cpuList, tree);
  }

  method SetSample(node: TopoNode, c: Counter, sample: Sample, i: nat, ghost cpuList: seq<TopoNode>, ghost tree: Tree)
    requires Holds(tree) && ListsLeaves(tree.nodes, cpuList) && Aggregated(tree, cpuList)
    requires i < |cpuList| && node == cpuList[i] && Sampled(cpuList[..i], sample)
    modifies tree.nodes`loadInfo
    ensures Aggregated(tree, cpuList) && Sampled(cpuList[..i], sample)
    ensures node.loadInfo.Get(c) == sample(node.id, c)
    ensures forall d :: d != c ==> node.loadInfo.Get(d) == old(node.loadInfo.Get(d))
  {
    node.SetCounter(c, sample(node.id, c), tree, cpuList);
    forall l | l in cpuList[..i] ensures l != node && !Below(tree, node, l) {
      assert l in tree.nodes && l.topotype == CPU;
    }
  }

  ghost function SampleSum(tree: Tree, leaves: seq<TopoNode>, n: TopoNode, sample: Sample, c: Counter): int
    requires n in tree.nodes && forall l :: l in leaves ==> l in tree.nodes
  {
    if leaves == [] then 0
    else
      var l := leaves[|leaves| - 1];
      SampleSum(tree, leaves[..|leaves| - 1], n, sample, c) + (if Below(tree, l, n) then sample(l.id, c) else 0)
  }

  lemma {:induction false} SumOfSamples(tree: Tree, leaves: seq<TopoNode>, n: TopoNode, sample: Sample, c: Counter, values: Values)
    requires n in tree.nodes && values.Keys == tree.nodes && forall l :: l in leaves ==> l in tree.nodes
    requires forall l :: l in leaves ==> values[l] == sample(l.id, c)
    ensures SumBelow(tree, leaves, n, values) == SampleSum(tree, leaves, n, sample, c)
  {
    if leaves != [] {
      SumOfSamples(tree, leaves[..|leaves| - 1], n, sample, c, values);
    }
  }
}
