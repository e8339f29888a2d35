/** Nodes of the CPU topology tree and their aggregate counters (common/topology/topology.go).

A node has a level from CPU to All; its parent is one level up. The load, idle and irq counters
of the source share one code shape, so one method takes the counter as an argument.

The proofs speak of a tree as a value, `Tree`; `Holds` says that the nodes' `parent` and `child`
fields are that tree. Counters change without touching it. */
module Topology {
  import opened Words
  import opened Cpumasks
  import opened Prelude

  /** TopoType: the enumeration's integer values, ordered by how many CPUs a node spans. */
  type TopoType = t: nat | t <= ALL
  const CPU: nat := 0
  const CORE: nat := 1
  const CLUSTER: nat := 2
  const NUMA: nat := 3
  const CHIP: nat := 4
  const ALL: nat := 5

  datatype Counter = Load | Idle | Irq

  datatype TopoLoadInfo = TopoLoadInfo(bindCount: int, load: int, idle: int, irq: int) {
    function Get(c: Counter): int {
      match c
      case Load => load
      case Idle => idle
      case Irq => irq
    }

    predicate AgreesExceptOn(c: Counter, that: TopoLoadInfo) {
      && bindCount == that.bindCount
      && (c != Load ==> load == that.load)
      && (c != Idle ==> idle == that.idle)
      && (c != Irq ==> irq == that.irq)
    }

    /** Adds to one counter and leaves the other two and the bind count alone. */
    function Add(c: Counter, x: int): (r: TopoLoadInfo)
      ensures r.AgreesExceptOn(c, this) && r.Get(c) == Get(c) + x
    {
      match c
      case Load => this.(load := load + x)
      case Idle => this.(idle := idle + x)
      case Irq => this.(irq := irq + x)
    }
  }

  // ---- trees as values ----

  datatype TreeData = TreeData(nodes: set<TopoNode>, up: map<TopoNode, TopoNode>, kids: map<TopoNode, seq<TopoNode>>)

  /** Every node but those of the top level has a parent one level up, and the child lists hold
  exactly the nodes with that parent, each once. */
  ghost predicate WellFormed(tree: TreeData) {
    && tree.kids.Keys == tree.nodes
    && tree.up.Keys == (set n | n in tree.nodes && n.topotype < ALL)
    && (forall n {:trigger tree.up[n]} :: n in tree.up ==>
          tree.up[n] in tree.nodes && tree.up[n].topotype == n.topotype + 1 && n in tree.kids[tree.up[n]])
    && (forall n, c {:trigger c in tree.kids[n]} :: n in tree.nodes && c in tree.kids[n] ==>
          c in tree.up && tree.up[c] == n)
    && (forall n {:trigger tree.kids[n]} :: n in tree.nodes ==> NoDuplicates(tree.kids[n]))
  }

  type Tree = tree: TreeData | WellFormed(tree) ghost witness TreeData({}, map[], map[])

  /** The nodes' own fields are this tree. */
  ghost predicate Holds(tree: Tree)
    reads tree.nodes`parent, tree.nodes`child
  {
    match tree
    case TreeData(nodes, up, kids) =>
      forall n {:trigger n.parent} {:trigger n.child} :: n in nodes ==>
        n.parent == (if n in up then up[n] else null) && n.child == kids[n]
  }

  /** The node of level `t` on the parent chain of `n`. */
  ghost function Ancestor(tree: Tree, n: TopoNode, t: TopoType): (a: TopoNode)
    requires n in tree.nodes && n.topotype <= t
    ensures a in tree.nodes && a.topotype == t
    decreases t - n.topotype
  {
    if n.topotype == t then n else Ancestor(tree, tree.up[n], t)
  }

  ghost predicate Below(tree: Tree, l: TopoNode, n: TopoNode)
    requires l in tree.nodes && n in tree.nodes
  {
    l.topotype <= n.topotype && Ancestor(tree, l, n.topotype) == n
  }

  /** The CPU leaves below a node. */
  ghost function Leaves(tree: Tree, n: TopoNode): set<TopoNode>
    requires n in tree.nodes
  {
    set l | l in tree.nodes && l.topotype == CPU && Below(tree, l, n)
  }

  lemma {:induction false} AncestorStep(tree: Tree, n: TopoNode, t: TopoType)
    requires n in tree.nodes && n.topotype <= t < ALL
    ensures tree.up[Ancestor(tree, n, t)] == Ancestor(tree, n, t + 1)
    decreases t - n.topotype
  {
    if n.topotype < t {
      AncestorStep(tree, tree.up[n], t);
    }
  }

  lemma ChildLevel(tree: Tree, n: TopoNode, i: nat)
    requires n in tree.nodes && i < |tree.kids[n]|
    ensures tree.kids[n][i] in tree.nodes && tree.kids[n][i].topotype + 1 == n.topotype
    ensures tree.up[tree.kids[n][i]] == n
  {
    assert tree.kids[n][i] in tree.kids[n];
  }

  lemma NoChildOfCpu(tree: Tree, n: TopoNode)
    requires n in tree.nodes && n.topotype == CPU
    ensures tree.kids[n] == [] && Leaves(tree, n) == {n}
  {
    if |tree.kids[n]| > 0 {
      ChildLevel(tree, n, 0);
    }
  }

  /** The leaves below the first `i` children of `n`. */
  ghost function LeavesOfChildren(tree: Tree, n: TopoNode, i: nat): set<TopoNode>
    requires n in tree.nodes && i <= |tree.kids[n]| && n.topotype > CPU
  {
    set l | l in tree.nodes && l.topotype == CPU && Ancestor(tree, l, n.topotype - 1) in tree.kids[n][..i]
  }

  lemma ChildLeavesApart(tree: Tree, n: TopoNode, i: nat)
    requires n in tree.nodes && n.topotype > CPU && i < |tree.kids[n]|
    ensures tree.kids[n][i] in tree.nodes && tree.kids[n][i].topotype == n.topotype - 1
    ensures LeavesOfChildren(tree, n, i) !! Leaves(tree, tree.kids[n][i])
    ensures LeavesOfChildren(tree, n, i + 1) == LeavesOfChildren(tree, n, i) + Leaves(tree, tree.kids[n][i])
  {
    ChildLevel(tree, n, i);
    assert tree.kids[n][..i + 1] == tree.kids[n][..i] + [tree.kids[n][i]];
  }

  lemma AllChildren(tree: Tree, n: TopoNode)
    requires n in tree.nodes && n.topotype > CPU
    ensures LeavesOfChildren(tree, n, |tree.kids[n]|) == Leaves(tree, n)
  {
    assert tree.kids[n][..|tree.kids[n]|] == tree.kids[n];
    forall l | l in tree.nodes && l.topotype == CPU
      ensures Below(tree, l, n) <==> Ancestor(tree, l, n.topotype - 1) in tree.kids[n]
    {
      AncestorStep(tree, l, n.topotype - 1);
    }
  }

  // ---- aggregation ----

  type Values = map<TopoNode, int>

  type Infos = map<TopoNode, TopoLoadInfo>

  ghost function Snapshot(nodes: set<TopoNode>): Infos
    reads nodes`loadInfo
  {
    map n | n in nodes :: n.loadInfo
  }

  /** One counter of every node. */
  ghost function ValuesOf(infos: Infos, c: Counter): Values {
    map n | n in infos :: infos[n].Get(c)
  }

  /** Sum of a counter over the listed leaves that are below `n`. */
  ghost function SumBelow(tree: Tree, leaves: seq<TopoNode>, n: TopoNode, values: Values): int
    requires n in tree.nodes && values.Keys == tree.nodes
    requires forall l :: l in leaves ==> l in tree.nodes
  {
    if leaves == [] then 0
    else
      var l := leaves[|leaves| - 1];
      SumBelow(tree, leaves[..|leaves| - 1], n, values) + (if Below(tree, l, n) then values[l] else 0)
  }

  /** `leaves` lists every CPU node once. */
  ghost predicate ListsLeaves(nodes: set<TopoNode>, leaves: seq<TopoNode>) {
    && NoDuplicates(leaves)
    && (forall n :: n in leaves ==> n in nodes && n.topotype == CPU)
    && (forall n :: n in nodes && n.topotype == CPU ==> n in leaves)
  }

  ghost predicate AggregatedIn(tree: Tree, leaves: seq<TopoNode>, values: Values)
    requires ListsLeaves(tree.nodes, leaves) && values.Keys == tree.nodes
  {
    forall n :: n in tree.nodes ==> values[n] == SumBelow(tree, leaves, n, values)
  }

  /** Every node's three counters are the sums over the CPU leaves below it. */
  ghost predicate Aggregated(tree: Tree, leaves: seq<TopoNode>)
    requires ListsLeaves(tree.nodes, leaves)
    reads tree.nodes`loadInfo
  {
    forall c :: AggregatedIn(tree, leaves, ValuesOf(Snapshot(tree.nodes), c))
  }

  /** What a node gains when every leaf in `touched` gains `q`. */
  ghost function Gain(tree: Tree, touched: set<TopoNode>, n: TopoNode, q: int): int
    requires n in tree.nodes
  {
    Times(q, |touched * Leaves(tree, n)|)
  }

  ghost predicate Gained(tree: Tree, before: Values, after: Values, touched: set<TopoNode>, q: int)
    requires before.Keys == tree.nodes && after.Keys == tree.nodes
  {
    forall n :: n in tree.nodes ==> after[n] == before[n] + Gain(tree, touched, n, q)
  }

  /** Those of the listed leaves that were touched and are below `n`. */
  ghost function TouchedBelow(tree: Tree, leaves: seq<TopoNode>, touched: set<TopoNode>, n: TopoNode): set<TopoNode>
    requires n in tree.nodes
  {
    set l | l in leaves && l in touched && l in tree.nodes && Below(tree, l, n)
  }

  lemma TouchedStep(tree: Tree, rest: seq<TopoNode>, l: TopoNode, touched: set<TopoNode>, n: TopoNode)
    requires n in tree.nodes && l in tree.nodes && l !in rest
    ensures |TouchedBelow(tree, rest + [l], touched, n)|
         == |TouchedBelow(tree, rest, touched, n)| + (if l in touched && Below(tree, l, n) then 1 else 0)
  {
    var some, all := TouchedBelow(tree, rest, touched, n), TouchedBelow(tree, rest + [l], touched, n);
    if l in touched && Below(tree, l, n) {
      assert all == some + {l};
    } else {
      assert all == some;
    }
  }

  lemma {:induction false} SumGains(tree: Tree, leaves: seq<TopoNode>, before: Values, after: Values,
                                    touched: set<TopoNode>, q: int, n: TopoNode)
    requires n in tree.nodes && before.Keys == tree.nodes && after.Keys == tree.nodes
    requires NoDuplicates(leaves) && forall l :: l in leaves ==> l in tree.nodes
    requires forall l :: l in leaves ==> after[l] == before[l] + (if l in touched then q else 0)
    ensures SumBelow(tree, leaves, n, after)
         == SumBelow(tree, leaves, n, before) + Times(q, |TouchedBelow(tree, leaves, touched, n)|)
  {
    if leaves == [] {
      assert TouchedBelow(tree, leaves, touched, n) == {};
    } else {
      var rest, l := leaves[..|leaves| - 1], leaves[|leaves| - 1];
      assert leaves == rest + [l];
      SumGains(tree, rest, before, after, touched, q, n);
      TouchedStep(tree, rest, l, touched, n);
    }
  }

  lemma LeafGain(tree: Tree, touched: set<TopoNode>, l: TopoNode, q: int)
    requires l in tree.nodes && l.topotype == CPU
    ensures Gain(tree, touched, l, q) == if l in touched then q else 0
  {
    assert Leaves(tree, l) == {l};
    ShareOfOne(touched, l, q);
  }

  lemma ShareOfOne<T>(s: set<T>, x: T, q: int)
    ensures Times(q, |s * {x}|) == if x in s then q else 0
  {
    assert s * {x} == if x in s then {x} else {};
    assert Times(q, 1) == Times(q, 0) + q;
  }

  /** The ancestors of `l` on the levels below `t`, `l` included. */
  ghost function Chain(tree: Tree, l: TopoNode, t: nat): set<TopoNode>
    requires l in tree.nodes && l.topotype == CPU && t <= ALL + 1
  {
    if t == 0 then {} else Chain(tree, l, t - 1) + {Ancestor(tree, l, t - 1)}
  }

  lemma {:induction false} ChainLevels(tree: Tree, l: TopoNode, t: nat)
    requires l in tree.nodes && l.topotype == CPU && t <= ALL + 1
    ensures Chain(tree, l, t) <= tree.nodes
    ensures forall n :: n in tree.nodes ==> (n in Chain(tree, l, t) <==> n.topotype < t && Below(tree, l, n))
  {
    if t > 0 {
      ChainLevels(tree, l, t - 1);
    }
  }

  lemma ChainGain(tree: Tree, l: TopoNode, n: TopoNode, q: int)
    requires l in tree.nodes && l.topotype == CPU && n in tree.nodes
    ensures Gain(tree, {l}, n, q) == if Below(tree, l, n) then q else 0
  {
    ShareOfOne(Leaves(tree, n), l, q);
    assert {l} * Leaves(tree, n) == Leaves(tree, n) * {l};
  }

  /** The invariant behind the counters: when each node gains its share of what the leaves gained,
  the aggregation survives. */
  lemma GainKeepsAggregated(tree: Tree, leaves: seq<TopoNode>, before: Values, after: Values,
                            touched: set<TopoNode>, q: int)
    requires ListsLeaves(tree.nodes, leaves) && before.Keys == tree.nodes && after.Keys == tree.nodes
    requires Gained(tree, before, after, touched, q) && AggregatedIn(tree, leaves, before)
    ensures AggregatedIn(tree, leaves, after)
  {
    forall n | n in tree.nodes ensures after[n] == SumBelow(tree, leaves, n, after) {
      GainAtNode(tree, leaves, before, after, touched, q, n);
    }
  }

  lemma GainAtNode(tree: Tree, leaves: seq<TopoNode>, before: Values, after: Values,
                   touched: set<TopoNode>, q: int, n: TopoNode)
    requires ListsLeaves(tree.nodes, leaves) && before.Keys == tree.nodes && after.Keys == tree.nodes
    requires Gained(tree, before, after, touched, q) && n in tree.nodes
    ensures SumBelow(tree, leaves, n, after) == SumBelow(tree, leaves, n, before) + Gain(tree, touched, n, q)
  {
    forall l | l in leaves ensures after[l] == before[l] + (if l in touched then q else 0) {
      LeafGain(tree, touched, l, q);
    }
    SumGains(tree, leaves, before, after, touched, q, n);
    assert TouchedBelow(tree, leaves, touched, n) == touched * Leaves(tree, n);
  }

  lemma GainSplit(tree: Tree, a: set<TopoNode>, b: set<TopoNode>, n: TopoNode, q: int)
    requires n in tree.nodes && a !! b
    ensures Gain(tree, a + b, n, q) == Gain(tree, a, n, q) + Gain(tree, b, n, q)
  {
    SharesAdd(a, b, Leaves(tree, n), q);
  }

  lemma SharesAdd<T>(a: set<T>, b: set<T>, s: set<T>, q: int)
    requires a !! b
    ensures Times(q, |(a + b) * s|) == Times(q, |a * s|) + Times(q, |b * s|)
  {
    assert (a + b) * s == a * s + b * s;
    TimesAdd(q, |a * s|, |b * s|);
  }

  lemma {:induction false} TimesAdd(q: int, j: nat, k: nat)
    ensures Times(q, j + k) == Times(q, j) + Times(q, k)
  {
    if k > 0 {
      TimesAdd(q, j, k - 1);
    }
  }

  // ---- what one traversal adds ----

  /** What node `n` gains when each CPU at or below `top` adds `q` along its parent chain. */
  ghost function Share(tree: Tree, top: TopoNode, n: TopoNode, q: int): int
    requires top in tree.nodes && n in tree.nodes
    decreases top.topotype, 0
  {
    if top.topotype == CPU then (if Below(tree, top, n) then q else 0)
    else KidsShare(tree, top, |tree.kids[top]|, n, q)
  }

  ghost function KidsShare(tree: Tree, top: TopoNode, i: nat, n: TopoNode, q: int): int
    requires top in tree.nodes && n in tree.nodes && top.topotype > CPU && i <= |tree.kids[top]|
    decreases top.topotype - 1, i + 1
  {
    if i == 0 then 0
    else
      ChildLevel(tree, top, i - 1);
      KidsShare(tree, top, i - 1, n, q) + Share(tree, tree.kids[top][i - 1], n, q)
  }

  lemma {:induction false} ShareIsGain(tree: Tree, top: TopoNode, n: TopoNode, q: int)
    requires top in tree.nodes && n in tree.nodes
    ensures Share(tree, top, n, q) == Gain(tree, Leaves(tree, top), n, q)
    decreases top.topotype, 0
  {
    if top.topotype == CPU {
      NoChildOfCpu(tree, top);
      ChainGain(tree, top, n, q);
    } else {
      KidsShareIsGain(tree, top, |tree.kids[top]|, n, q);
      AllChildren(tree, top);
    }
  }

  lemma {:induction false} KidsShareIsGain(tree: Tree, top: TopoNode, i: nat, n: TopoNode, q: int)
    requires top in tree.nodes && n in tree.nodes && top.topotype > CPU && i <= |tree.kids[top]|
    ensures KidsShare(tree, top, i, n, q) == Gain(tree, LeavesOfChildren(tree, top, i), n, q)
    decreases top.topotype - 1, i + 1
  {
    if i == 0 {
      NoKids(tree, top, n, q);
    } else {
      var kid := tree.kids[top][i - 1];
      ChildLevel(tree, top, i - 1);
      KidsShareIsGain(tree, top, i - 1, n, q);
      ShareIsGain(tree, kid, n, q);
      NextKid(tree, top, i - 1, i, kid, n, q);
    }
  }

  lemma NoKids(tree: Tree, top: TopoNode, n: TopoNode, q: int)
    requires top in tree.nodes && n in tree.nodes && top.topotype > CPU
    ensures KidsShare(tree, top, 0, n, q) == 0 == Gain(tree, LeavesOfChildren(tree, top, 0), n, q)
  {
    assert LeavesOfChildren(tree, top, 0) * Leaves(tree, n) == {};
  }

  /** The next child: its share is added, and its leaves are. */
  lemma NextKid(tree: Tree, top: TopoNode, i: nat, next: nat, kid: TopoNode, n: TopoNode, q: int)
    requires top in tree.nodes && n in tree.nodes && kid in tree.nodes && top.topotype > CPU
    requires next == i + 1 <= |tree.kids[top]| && kid == tree.kids[top][i]
    ensures KidsShare(tree, top, next, n, q) == KidsShare(tree, top, i, n, q) + Share(tree, kid, n, q)
    ensures Gain(tree, LeavesOfChildren(tree, top, next), n, q)
         == Gain(tree, LeavesOfChildren(tree, top, i), n, q) + Gain(tree, Leaves(tree, kid), n, q)
  {
    ChildLeavesApart(tree, top, i);
    GainSplit(tree, LeavesOfChildren(tree, top, i), Leaves(tree, kid), n, q);
  }

  /** A call on `top` that spreads share `q` of counter `c` keeps every counter the sum over the
  leaves below. */
  lemma AddKeepsAggregated(tree: Tree, leaves: seq<TopoNode>, before: Infos, after: Infos,
                           c: Counter, top: TopoNode, q: int, d: Counter)
    requires ListsLeaves(tree.nodes, leaves) && top in tree.nodes
    requires before.Keys == tree.nodes && after.Keys == tree.nodes
    requires forall n :: n in tree.nodes ==> after[n] == before[n].Add(c, Share(tree, top, n, q))
    requires AggregatedIn(tree, leaves, ValuesOf(before, d))
    ensures AggregatedIn(tree, leaves, ValuesOf(after, d))
  {
    if d == c {
      forall n | n in tree.nodes ensures Share(tree, top, n, q) == Gain(tree, Leaves(tree, top), n, q) {
        ShareIsGain(tree, top, n, q);
      }
      GainKeepsAggregated(tree, leaves, ValuesOf(before, c), ValuesOf(after, c), Leaves(tree, top), q);
    } else {
      assert ValuesOf(after, d) == ValuesOf(before, d);
    }
  }

  // ---- the nodes ----

  class TopoNode {
    const id: int
    const topotype: TopoType
    /** The CPU whose scan created this node; only proofs read it. */
    ghost const rep: int
    var mask: MaskWords
    var parent: TopoNode?
    var child: seq<TopoNode>
    var loadInfo: TopoLoadInfo

    /** A node as the get*Node functions return it: not attached yet. */
    constructor (id: int, topotype: TopoType, mask: MaskWords, ghost rep: int)
      ensures this.id == id && this.topotype == topotype && this.mask == mask && this.rep == rep
      ensures parent == null && child == [] && loadInfo == TopoLoadInfo(0, 0, 0, 0)
    {
      this.id, this.topotype, this.rep := id, topotype, rep;
      this.mask := mask;
      parent, child, loadInfo := null, [], TopoLoadInfo(0, 0, 0, 0);
    }

    /** The loop of AddLoad, AddIdle and AddIrq on a CPU: up the parent chain, this node included. */
    method Climb(c: Counter, x: int, ghost tree: Tree)
      requires Holds(tree) && this in tree.nodes && topotype == CPU
      modifies tree.nodes`loadInfo
      ensures forall n :: n in tree.nodes ==>
                n.loadInfo == if Below(tree, this, n) then old(n.loadInfo).Add(c, x) else old(n.loadInfo)
    {
      var p: TopoNode? := this;
      ghost var t := 0;
      while p != null
        invariant t <= ALL + 1
        invariant p == if t <= ALL then Ancestor(tree, this, t) else null
        invariant forall n :: n in tree.nodes ==>
                    n.loadInfo == if n in Chain(tree, this, t) then old(n.loadInfo).Add(c, x) else old(n.loadInfo)
        decreases ALL + 1 - t
      {
        ChainLevels(tree, this, t);
        p.loadInfo := p.loadInfo.Add(c, x);
        if t < ALL {
          AncestorStep(tree, this, t);
        }
        p := p.parent;
        t := t + 1;
      }
      ChainLevels(tree, this, t);
    }

    method AddOnCpu(c: Counter, x: int, ghost tree: Tree)
      requires Holds(tree) && this in tree.nodes && topotype == CPU
      modifies tree.nodes`loadInfo
      ensures forall n :: n in tree.nodes ==>
                n.loadInfo == old(n.loadInfo).Add(c, Share(tree, this, n, x))
    {
      Climb(c, x, tree);
    }

    /** ForeachChildCall with the callback that adds a share to each CPU it meets. */
    method ForeachChildAdd(c: Counter, share: int, ghost tree: Tree)
      requires Holds(tree) && this in tree.nodes
      modifies tree.nodes`loadInfo
      ensures forall n :: n in tree.nodes ==>
                n.loadInfo == old(n.loadInfo).Add(c, Share(tree, this, n, share))
      decreases topotype
    {
      if topotype == CPU {
        AddOnCpu(c, share, tree);
      }
      for i := 0 to |child|
        invariant child == tree.kids[this]
        invariant topotype == CPU ==> i == 0
        invariant forall n :: n in tree.nodes ==>
                    n.loadInfo == old(n.loadInfo).Add(c, if topotype == CPU then Share(tree, this, n, share)
                                                         else KidsShare(tree, this, i, n, share))
      {
        ChildLevel(tree, this, i);
        child[i].ForeachChildAdd(c, share, tree);
      }
      if topotype == CPU {
        NoChildOfCpu(tree, this);
      }
    }

    /** AddLoad, AddIdle and AddIrq: on a CPU the amount itself, elsewhere each CPU below gets the
    amount divided by the number of CPUs in the mask, truncated. An empty mask divides by zero. */
    method AddCounter(c: Counter, x: int, ghost tree: Tree, ghost leaves: seq<TopoNode>)
      requires Holds(tree) && this in tree.nodes && ListsLeaves(tree.nodes, leaves)
      requires topotype != CPU ==> Members(mask) != {}
      modifies tree.nodes`loadInfo
      ensures forall n :: n in tree.nodes ==>
                n.loadInfo == old(n.loadInfo).Add(c, Share(tree, this, n, PerCpu(this, x)))
      ensures old(Aggregated(tree, leaves)) ==> Aggregated(tree, leaves)
    {
      ghost var before := Snapshot(tree.nodes);
      if topotype == CPU {
        AddOnCpu(c, x, tree);
      } else {
        var weight := Weight(mask);
        ForeachChildAdd(c, TruncDiv(x, weight), tree);
      }
      if old(Aggregated(tree, leaves)) {
        forall d: Counter ensures AggregatedIn(tree, leaves, ValuesOf(Snapshot(tree.nodes), d)) {
          AddKeepsAggregated(tree, leaves, before, Snapshot(tree.nodes), c, this, PerCpu(this, x), d);
        }
      }
    }

    method SubCounter(c: Counter, x: int, ghost tree: Tree, ghost leaves: seq<TopoNode>)
      requires Holds(tree) && this in tree.nodes && ListsLeaves(tree.nodes, leaves)
      requires topotype != CPU ==> Members(mask) != {}
      modifies tree.nodes`loadInfo
      ensures forall n :: n in tree.nodes ==>
                n.loadInfo == old(n.loadInfo).Add(c, Share(tree, this, n, PerCpu(this, -x)))
      ensures old(Aggregated(tree, leaves)) ==> Aggregated(tree, leaves)
    {
      AddCounter(c, -x, tree, leaves);
    }

    method SetCounter(c: Counter, x: int, ghost tree: Tree, ghost leaves: seq<TopoNode>)
      requires Holds(tree) && this in tree.nodes && ListsLeaves(tree.nodes, leaves)
      requires topotype != CPU ==> Members(mask) != {}
      modifies tree.nodes`loadInfo
      ensures forall n :: n in tree.nodes ==>
                n.loadInfo == old(n.loadInfo).Add(c, Share(tree, this, n, PerCpu(this, x - old(loadInfo.Get(c)))))
      ensures old(Aggregated(tree, leaves)) ==> Aggregated(tree, leaves)
      ensures topotype == CPU ==> loadInfo.Get(c) == x
    {
      AddCounter(c, x - loadInfo.Get(c), tree, leaves);
    }

    method AddBind()
      modifies this`loadInfo
      ensures loadInfo == old(loadInfo).(bindCount := old(loadInfo.bindCount) + 1)
    {
      loadInfo := loadInfo.(bindCount := loadInfo.bindCount + 1);
    }

    /** The ancestor of the wanted type, this node included; none when the type is below this one. */
    method Parent(t: TopoType, ghost tree: Tree) returns (p: TopoNode?)
      requires Holds(tree) && this in tree.nodes
      ensures p == if topotype <= t then Ancestor(tree, this, t) else null
    {
      p := this;
      ghost var k := topotype;
      while p != null && p.topotype != t
        invariant topotype <= k <= ALL + 1
        invariant p == if k <= ALL then Ancestor(tree, this, k) else null
        invariant topotype <= t ==> k <= t
        decreases ALL + 1 - k
      {
        if k < ALL {
          AncestorStep(tree, this, k);
        }
        p := p.parent;
        k := k + 1;
      }
    }

    method GetChildSize() returns (size: nat)
      ensures size == |child|
    {
      size := |child|;
    }

    method GetAllCpusForNode(found: seq<TopoNode>, ghost tree: Tree) returns (nodes: seq<TopoNode>)
      requires Holds(tree) && this in tree.nodes
      ensures nodes == found + CpuList(tree, this)
      decreases topotype
    {
      if topotype == CPU {
        return found + [this];
      }
      nodes := found;
      for i := 0 to |child|
        invariant nodes == found + KidsCpuList(tree, this, i)
      {
        ChildLevel(tree, this, i);
        nodes := child[i].GetAllCpusForNode(nodes, tree);
      }
    }
  }

  /** The share of each CPU when `x` is added to `node`. */
  function PerCpu(node: TopoNode, x: int): int
    reads node`mask
    requires node.topotype != CPU ==> Members(node.mask) != {}
  {
    if node.topotype == CPU then x else TruncDiv(x, |Members(node.mask)|)
  }

  // ---- the CPUs below a node, in list order ----

  ghost function CpuList(tree: Tree, top: TopoNode): seq<TopoNode>
    requires top in tree.nodes
    decreases top.topotype, 0
  {
    if top.topotype == CPU then [top] else KidsCpuList(tree, top, |tree.kids[top]|)
  }

  ghost function KidsCpuList(tree: Tree, top: TopoNode, i: nat): seq<TopoNode>
    requires top in tree.nodes && top.topotype > CPU && i <= |tree.kids[top]|
    decreases top.topotype - 1, i + 1
  {
    if i == 0 then []
    else
      ChildLevel(tree, top, i - 1);
      KidsCpuList(tree, top, i - 1) + CpuList(tree, tree.kids[top][i - 1])
  }

  /** GetAllCpusForNode finds every CPU below the node, each exactly once. */
  lemma {:induction false} CpuListIsLeaves(tree: Tree, top: TopoNode)
    requires top in tree.nodes
    ensures Lists(CpuList(tree, top), Leaves(tree, top))
    decreases top.topotype, 0
  {
    if top.topotype == CPU {
      NoChildOfCpu(tree, top);
    } else {
      KidsCpuListIsLeaves(tree, top, |tree.kids[top]|);
      AllChildren(tree, top);
    }
  }

  lemma {:induction false} KidsCpuListIsLeaves(tree: Tree, top: TopoNode, i: nat)
    requires top in tree.nodes && top.topotype > CPU && i <= |tree.kids[top]|
    ensures Lists(KidsCpuList(tree, top, i), LeavesOfChildren(tree, top, i))
    decreases top.topotype - 1, i + 1
  {
    if i == 0 {
      assert LeavesOfChildren(tree, top, 0) == {};
    } else {
      ChildLeavesApart(tree, top, i - 1);
      KidsCpuListIsLeaves(tree, top, i - 1);
      CpuListIsLeaves(tree, tree.kids[top][i - 1]);
      ListsConcat(KidsCpuList(tree, top, i - 1), LeavesOfChildren(tree, top, i - 1),
                  CpuList(tree, tree.kids[top][i - 1]), Leaves(tree, tree.kids[top][i - 1]));
    }
  }

  /** `s` lists the set `all`, each element once. */
  ghost predicate Lists<T>(s: seq<T>, all: set<T>) {
    NoDuplicates(s) && |s| == |all| && (set x | x in s) == all
  }

  lemma ListsConcat<T>(s: seq<T>, a: set<T>, t: seq<T>, b: set<T>)
    requires Lists(s, a) && Lists(t, b) && a !! b
    ensures Lists(s + t, a + b)
  {
    assert forall x :: x in s ==> x in a;
    assert forall x :: x in t ==> x in b;
    forall i, j | 0 <= i < j < |s + t| ensures (s + t)[i] != (s + t)[j] {
      if i < |s| && j >= |s| {
        assert s[i] in a && t[j - |s|] in b;
      }
    }
  }

  // ---- what the counters mean over whole runs ----

  /** One call of AddX, SubX or SetX on some node. */
  datatype CounterOp =
    | AddOp(node: TopoNode, c: Counter, x: int)
    | SubOp(node: TopoNode, c: Counter, x: int)
    | SetOp(node: TopoNode, c: Counter, x: int)

  /** Any run of counter calls on any nodes keeps every counter the sum over the CPUs below. */
  method RunCounterOps(ops: seq<CounterOp>, ghost tree: Tree, ghost leaves: seq<TopoNode>)
    requires Holds(tree) && ListsLeaves(tree.nodes, leaves) && Aggregated(tree, leaves)
    requires forall op :: op in ops ==> op.node in tree.nodes && (op.node.topotype != CPU ==> Members(op.node.mask) != {})
    modifies tree.nodes`loadInfo
    ensures Aggregated(tree, leaves)
  {
    for i := 0 to |ops|
      invariant Aggregated(tree, leaves)
    {
      match ops[i] {
        case AddOp(node, c, x) => node.AddCounter(c, x, tree, leaves);
        case SubOp(node, c, x) => node.SubCounter(c, x, tree, leaves);
        case SetOp(node, c, x) => node.SetCounter(c, x, tree, leaves);
      }
    }
  }

  // ---- undo and rounding ----

  lemma {:induction false} ShareNegates(tree: Tree, top: TopoNode, n: TopoNode, q: int)
    requires top in tree.nodes && n in tree.nodes
    ensures Share(tree, top, n, -q) == -Share(tree, top, n, q)
  {
    ShareIsGain(tree, top, n, q);
    ShareIsGain(tree, top, n, -q);
    TimesIsProduct(q, |Leaves(tree, top) * Leaves(tree, n)|);
    TimesIsProduct(-q, |Leaves(tree, top) * Leaves(tree, n)|);
  }

  lemma TruncDivOdd(a: int, b: int)
    requires b > 0
    ensures TruncDiv(-a, b) == -TruncDiv(a, b)
  {
  }

  lemma SharesCancel(tree: Tree, node: TopoNode, x: int)
    requires node in tree.nodes && (node.topotype != CPU ==> Members(node.mask) != {})
    ensures forall n :: n in tree.nodes ==>
      Share(tree, node, n, PerCpu(node, -x)) == -Share(tree, node, n, PerCpu(node, x))
  {
    if node.topotype != CPU {
      TruncDivOdd(x, |Members(node.mask)|);
    }
    forall n | n in tree.nodes ensures Share(tree, node, n, PerCpu(node, -x)) == -Share(tree, node, n, PerCpu(node, x)) {
      ShareNegates(tree, node, n, PerCpu(node, x));
    }
  }

  /** Adding and then subtracting the same amount on any node restores the whole tree: truncation
  toward zero is odd, so both calls spread the same share. */
  method AddThenSub(node: TopoNode, c: Counter, x: int, ghost tree: Tree, ghost leaves: seq<TopoNode>)
    requires Holds(tree) && node in tree.nodes && ListsLeaves(tree.nodes, leaves)
    requires node.topotype != CPU ==> Members(node.mask) != {}
    modifies tree.nodes`loadInfo
    ensures forall n :: n in tree.nodes ==> n.loadInfo == old(n.loadInfo)
  {
    node.AddCounter(c, x, tree, leaves);
    node.SubCounter(c, x, tree, leaves);
    SharesCancel(tree, node, x);
  }

  /** What the node itself gains: its leaves times the truncated share. When every CPU of the mask
  is a leaf, that is never more than the amount asked for, and less by less than one unit per CPU. */
  lemma OwnGain(tree: Tree, node: TopoNode, x: int)
    requires node in tree.nodes
    requires node.topotype != CPU ==> Members(node.mask) != {}
    ensures Share(tree, node, node, PerCpu(node, x)) == |Leaves(tree, node)| * PerCpu(node, x)
    ensures node.topotype != CPU && |Leaves(tree, node)| == |Members(node.mask)| ==>
              var missing := x - Share(tree, node, node, PerCpu(node, x));
              if x >= 0 then 0 <= missing < |Leaves(tree, node)| else -|Leaves(tree, node)| < missing <= 0
  {
    var q := PerCpu(node, x);
    ShareIsGain(tree, node, node, q);
    assert Leaves(tree, node) * Leaves(tree, node) == Leaves(tree, node);
    TimesIsProduct(q, |Leaves(tree, node)|);
    if node.topotype != CPU {
      TruncationError(x, |Members(node.mask)|);
    }
  }

  lemma TruncationError(x: int, w: int)
    requires w > 0
    ensures if x >= 0 then 0 <= x - w * TruncDiv(x, w) < w else -w < x - w * TruncDiv(x, w) <= 0
  {
    if x >= 0 {
      assert x == w * (x / w) + x % w;
    } else {
      assert -x == w * ((-x) / w) + (-x) % w;
    }
  }
}
