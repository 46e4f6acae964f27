/** The cluster's resource totals: one pass over the nodes that adds each to the bucket of its state. */
module Resources {
  import opened Common
  import opened Text
  import Decimal

  // ---------- GPUs in a gres text ----------

  /** Digits, with single underscores allowed between them. */
  predicate Grouped(s: string) {
    && s != "" && Decimal.IsDigit(s[0]) && Decimal.IsDigit(s[|s| - 1])
    && (forall i | 0 <= i < |s| :: Decimal.IsDigit(s[i]) || s[i] == '_')
    && (forall i | 0 < i < |s| :: !(s[i - 1] == '_' && s[i] == '_'))
  }

  function Ungrouped(s: string): (r: string)
    ensures (forall i | 0 <= i < |s| :: Decimal.IsDigit(s[i]) || s[i] == '_') ==> Decimal.AllDigits(r)
    ensures '_' !in s ==> r == s
  {
    if s == "" then ""
    else
      assert s == s[..|s| - 1] + [s[|s| - 1]];
      Ungrouped(s[..|s| - 1]) + if s[|s| - 1] == '_' then "" else [s[|s| - 1]]
  }

  /** int() of a text: white space around, one sign, then digits. */
  function ParseInt(s: string): Option<int> {
    var t := Strip(s);
    var digits := if t != "" && (t[0] == '+' || t[0] == '-') then t[1..] else t;
    if !Grouped(digits) then None
    else if t[0] == '-' then Some(-(Decimal.Value(Ungrouped(digits)) as int))
    else Some(Decimal.Value(Ungrouped(digits)))
  }

  /** Digits in which every underscore stands between two of them. */
  lemma GroupedIff(s: string)
    ensures Grouped(s) <==>
            && s != ""
            && forall i | 0 <= i < |s| ::
                 || Decimal.IsDigit(s[i])
                 || (s[i] == '_' && 0 < i < |s| - 1 && Decimal.IsDigit(s[i - 1]) && Decimal.IsDigit(s[i + 1]))
  {
    assert !Decimal.IsDigit('_');
    hide Decimal.IsDigit;
    if Grouped(s) {
      forall i | 0 <= i < |s| && !Decimal.IsDigit(s[i])
        ensures s[i] == '_' && 0 < i < |s| - 1 && Decimal.IsDigit(s[i - 1]) && Decimal.IsDigit(s[i + 1])
      {
        assert !(s[(i + 1) - 1] == '_' && s[i + 1] == '_');
      }
    }
  }

  /** A number reads as its digits, whatever white space is around it, negative after a minus. */
  lemma ParseIntIs(s: string, digits: string)
    requires Grouped(digits)
    ensures Strip(s) == digits || Strip(s) == "+" + digits ==> ParseInt(s) == Some(Decimal.Value(Ungrouped(digits)))
    ensures Strip(s) == "-" + digits ==> ParseInt(s) == Some(-(Decimal.Value(Ungrouped(digits)) as int))
  {
    hide Strip, Ungrouped, Decimal.Value;
    assert ("+" + digits)[1..] == digits && ("-" + digits)[1..] == digits;
  }

  /** Nothing else reads as a number. */
  lemma ParsedIntIsNumber(s: string)
    ensures ParseInt(s).Some? ==> exists digits :: Grouped(digits) && Strip(s) in {digits, "+" + digits, "-" + digits}
  {
    hide Strip, Ungrouped, Decimal.Value, Grouped;
    var t := Strip(s);
    if ParseInt(s).Some? && t != "" && (t[0] == '+' || t[0] == '-') {
      assert t == [t[0]] + t[1..];
    }
  }

  /** The GPUs of one comma-separated item; None stands for the ValueError. */
  function ItemGpus(item: string): Option<int> {
    if item == "" then Some(0)
    else
      var gres := Split(Split(item, '(')[0], ':');
      if gres[0] == "gpu" then ParseInt(gres[|gres| - 1]) else Some(0)
  }

  function Plus(a: Option<int>, b: Option<int>): Option<int> {
    if a.Some? && b.Some? then Some(a.value + b.value) else None
  }

  function ItemsGpus(items: seq<string>): Option<int> {
    if items == [] then Some(0) else Plus(ItemsGpus(items[..|items| - 1]), ItemGpus(items[|items| - 1]))
  }

  function Gpus(gres: string): Option<int> {
    ItemsGpus(Split(gres, ','))
  }

  lemma {:induction false} ItemsConcat(a: seq<string>, b: seq<string>)
    ensures ItemsGpus(a + b) == Plus(ItemsGpus(a), ItemsGpus(b))
  {
    hide ItemGpus;
    if b == [] {
      assert a + b == a;
    } else {
      assert (a + b)[..|a + b| - 1] == a + b[..|b| - 1];
      ItemsConcat(a, b[..|b| - 1]);
    }
  }

  /** Joining two gres texts with a comma adds their GPUs, and fails exactly when one of them does. */
  lemma GpusOfConcat(a: string, b: string)
    ensures Gpus(a + "," + b) == Plus(Gpus(a), Gpus(b))
  {
    SplitConcat(a, b, ',');
    assert a + "," + b == a + [','] + b;
    ItemsConcat(Split(a, ','), Split(b, ','));
    hide Split, ItemsGpus;
  }

  lemma GpuParts(model: string, count: string)
    requires ':' !in model && ':' !in count
    ensures Split("gpu:" + model + ":" + count, ':') == ["gpu", model, count]
  {
    hide Split;
    SplitAt("gpu", model + ":" + count, ':');
    SplitAt(model, count, ':');
    SplitNone(count, ':');
    assert "gpu:" + model + ":" + count == "gpu" + [':'] + (model + ":" + count);
    assert model + ":" + count == model + [':'] + count;
  }

  lemma PlainNumber(n: nat)
    ensures ParseInt(Decimal.Show(n)) == Some(n)
  {
    var count := Decimal.Show(n);
    ShowDigits(n);
    hide Strip, Decimal.Show, IsSpace;
    assert count[0] in count && count[|count| - 1] in count;
    StripKeeps(count);
  }

  /** An item `gpu:model:n(...)` holds n GPUs, whatever the model. */
  lemma GpuItem(model: string, n: nat, index: string)
    requires '(' !in model && ':' !in model
    ensures ItemGpus("gpu:" + model + ":" + Decimal.Show(n) + "(" + index) == Some(n)
  {
    hide Split, ParseInt, Decimal.Show;
    var count := Decimal.Show(n);
    var head := "gpu:" + model + ":" + count;
    ShowDigits(n);
    SplitAt(head, index, '(');
    assert head + "(" + index == head + ['('] + index;
    GpuParts(model, count);
    PlainNumber(n);
  }

  /** An item without a model, or of another resource, or empty. */
  lemma PlainItems(n: nat, name: string, rest: string)
    requires ':' !in name && '(' !in name && name != "" && name != "gpu" && '(' !in rest
    ensures ItemGpus("gpu:" + Decimal.Show(n)) == Some(n)
    ensures ItemGpus(name + ":" + rest) == Some(0)
    ensures ItemGpus("") == Some(0)
  {
    hide Split, ParseInt, Decimal.Show;
    var count := Decimal.Show(n);
    ShowDigits(n);
    PlainNumber(n);
    SplitNone("gpu:" + count, '(');
    SplitAt("gpu", count, ':');
    SplitNone(count, ':');
    assert "gpu:" + count == "gpu" + [':'] + count;
    SplitNone(name + ":" + rest, '(');
    SplitAt(name, rest, ':');
    assert name + ":" + rest == name + [':'] + rest;
  }

  lemma {:induction false} ShowDigits(n: nat)
    ensures Decimal.Value(Decimal.Show(n)) == n
    ensures ':' !in Decimal.Show(n) && '(' !in Decimal.Show(n)
    ensures forall c | c in Decimal.Show(n) :: !IsSpace(c) && c != '+' && c != '-' && c != '_' && Decimal.IsDigit(c)
  {
    var s := Decimal.Show(n);
    assert forall c | c in s :: Decimal.IsDigit(c);
    if n >= 10 {
      ShowDigits(n / 10);
      assert s[..|s| - 1] == Decimal.Show(n / 10);
    } else {
      assert s[..|s| - 1] == "";
    }
  }

  method NodeGresExtractGpus(gres: string) returns (r: Option<int>)
    ensures r == Gpus(gres)
  {
    hide Split, ItemGpus;
    var items := Split(gres, ',');
    var result := 0;
    for i := 0 to |items|
      invariant ItemsGpus(items[..i]) == Some(result)
    {
      assert items[..i + 1][..i] == items[..i];
      var n := ItemGpus(items[i]);
      if n.None? {
        assert ItemsGpus(items[..i + 1]) == None;
        FailedPrefix(items, i + 1);
        return None;
      }
      result := result + n.value;
    }
    assert items[..|items|] == items;
    return Some(result);
  }

  lemma {:induction false} FailedPrefix(items: seq<string>, k: nat)
    requires k <= |items| && ItemsGpus(items[..k]).None?
    ensures ItemsGpus(items).None?
  {
    hide ItemsGpus;
    ItemsConcat(items[..k], items[k..]);
    assert items[..k] + items[k..] == items;
  }

  // ---------- Nodes ----------

  datatype Bucket = Idle | Mixed | Allocated | Drain | Down | Error | Fail | Unknown

  /** GPU counts are those read from the gres texts; memory is in megabytes. */
  datatype NodeInfo = NodeInfo(
    states: set<string>,
    partitions: set<string>,
    cpus: int,
    allocCpus: int,
    allocIdleCpus: int,
    gpus: int,
    usedGpus: int,
    realMemory: int,
    allocMemory: int)

  function BucketOf(n: NodeInfo): Bucket {
    if "ERROR" in n.states then Error
    else if "FAIL" in n.states then Fail
    else if "MIXED" in n.states then Mixed
    else if "ALLOCATED" in n.states then Allocated
    else if "DOWN" in n.states then Down
    else if "DRAIN" in n.states then Drain
    else if "IDLE" in n.states then Idle
    else Unknown
  }

  /** The states that decide a node's bucket, the first that it has deciding. */
  const PRECEDENCE: seq<(string, Bucket)> := [
    ("ERROR", Error), ("FAIL", Fail), ("MIXED", Mixed), ("ALLOCATED", Allocated), ("DOWN", Down), ("DRAIN", Drain),
    ("IDLE", Idle)]

  lemma BucketIs(n: NodeInfo)
    ensures forall i | 0 <= i < |PRECEDENCE| ::
              PRECEDENCE[i].0 in n.states && (forall j | 0 <= j < i :: PRECEDENCE[j].0 !in n.states) ==>
                BucketOf(n) == PRECEDENCE[i].1
    ensures (forall i | 0 <= i < |PRECEDENCE| :: PRECEDENCE[i].0 !in n.states) ==> BucketOf(n) == Unknown
  {
    forall i | 0 <= i < |PRECEDENCE| && PRECEDENCE[i].0 in n.states &&
               forall j | 0 <= j < i :: PRECEDENCE[j].0 !in n.states
      ensures BucketOf(n) == PRECEDENCE[i].1
    {
      assert forall j | 0 <= j < i :: PRECEDENCE[j].0 !in n.states;
      assert i > 0 ==> PRECEDENCE[0].0 !in n.states;
      assert i > 1 ==> PRECEDENCE[1].0 !in n.states;
      assert i > 2 ==> PRECEDENCE[2].0 !in n.states;
      assert i > 3 ==> PRECEDENCE[3].0 !in n.states;
      assert i > 4 ==> PRECEDENCE[4].0 !in n.states;
      assert i > 5 ==> PRECEDENCE[5].0 !in n.states;
    }
    if forall i | 0 <= i < |PRECEDENCE| :: PRECEDENCE[i].0 !in n.states {
      assert PRECEDENCE[0].0 !in n.states && PRECEDENCE[1].0 !in n.states && PRECEDENCE[2].0 !in n.states;
      assert PRECEDENCE[3].0 !in n.states && PRECEDENCE[4].0 !in n.states && PRECEDENCE[5].0 !in n.states;
      assert PRECEDENCE[6].0 !in n.states;
    }
  }

  type Counts = Bucket -> int

  function Zero(b: Bucket): int { 0 }

  /** One count increased. */
  function Add(c: Counts, b: Bucket, x: int): Counts {
    y => if y == b then c(y) + x else c(y)
  }

  function Total(c: Counts): int {
    c(Idle) + c(Mixed) + c(Allocated) + c(Drain) + c(Down) + c(Error) + c(Fail) + c(Unknown)
  }

  lemma TotalOfAdd(c: Counts, b: Bucket, x: int)
    ensures Total(Add(c, b, x)) == Total(c) + x
  {
  }

  function Max0(x: int): nat {
    if x > 0 then x else 0
  }

  function AllocatedMemory(n: NodeInfo): (m: nat)
    ensures m <= Max0(n.realMemory)
  {
    Max0(if n.allocMemory < Max0(n.realMemory) then n.allocMemory else Max0(n.realMemory))
  }

  datatype Report = Report(
    nodes: Counts,
    cores: Counts,
    gpus: Counts,
    idleMemory: real,
    allocatedMemory: real,
    nodesTotal: nat,
    coresTotal: int,
    gpusTotal: int,
    memoryTotal: real)

  const EMPTY := Report(Zero, Zero, Zero, 0.0, 0.0, 0, 0, 0, 0.0)

  function AddCores(c: Counts, n: NodeInfo): Counts {
    if BucketOf(n).Mixed? then Add(Add(c, Allocated, n.allocCpus), Idle, n.allocIdleCpus)
    else Add(c, BucketOf(n), n.cpus)
  }

  function AddGpus(c: Counts, n: NodeInfo): Counts {
    if BucketOf(n).Mixed? || BucketOf(n).Allocated? then Add(Add(c, Allocated, n.usedGpus), Idle, n.gpus - n.usedGpus)
    else Add(c, BucketOf(n), n.gpus)
  }

  function AddNode(r: Report, n: NodeInfo): Report {
    var realMemory, allocMemory := Max0(n.realMemory), AllocatedMemory(n);
    Report(
      Add(r.nodes, BucketOf(n), 1), AddCores(r.cores, n), AddGpus(r.gpus, n),
      r.idleMemory + Max0(realMemory - allocMemory) as real / 1024.0,
      r.allocatedMemory + allocMemory as real / 1024.0,
      r.nodesTotal + 1, r.coresTotal + n.cpus, r.gpusTotal + n.gpus,
      r.memoryTotal + realMemory as real / 1024.0)
  }

  predicate Selected(n: NodeInfo, partition: Option<string>) {
    partition.Some? ==> partition.value in n.partitions
  }

  /** The selected nodes, in order. */
  function Kept(nodes: seq<NodeInfo>, partition: Option<string>): seq<NodeInfo> {
    if nodes == [] then []
    else Kept(nodes[..|nodes| - 1], partition)
         + if Selected(nodes[|nodes| - 1], partition) then [nodes[|nodes| - 1]] else []
  }

  /** A report on a partition is on its nodes, in order; a report without one is on all. */
  lemma {:induction false} KeptAre(nodes: seq<NodeInfo>, partition: Option<string>) returns (origin: seq<nat>)
    ensures var kept := Kept(nodes, partition);
            && |origin| == |kept| && (forall k | 0 <= k < |kept| :: origin[k] < |nodes| && kept[k] == nodes[origin[k]])
            && (forall j, k | 0 <= j < k < |kept| :: origin[j] < origin[k])
            && (forall i | 0 <= i < |nodes| ::
                  i in origin <==> partition == None || partition.value in nodes[i].partitions)
  {
    if nodes == [] {
      origin := [];
    } else {
      var n := |nodes| - 1;
      origin := KeptAre(nodes[..n], partition);
      assert n !in origin;
      if partition == None || partition.value in nodes[n].partitions {
        origin := origin + [n];
      }
    }
  }

  function ReportOf(nodes: seq<NodeInfo>): Report {
    if nodes == [] then EMPTY else AddNode(ReportOf(nodes[..|nodes| - 1]), nodes[|nodes| - 1])
  }

  lemma ReportSnoc(nodes: seq<NodeInfo>, n: NodeInfo)
    ensures ReportOf(nodes + [n]) == AddNode(ReportOf(nodes), n)
  {
    assert (nodes + [n])[..|nodes|] == nodes;
  }

  method ResourcesStates(nodes: seq<NodeInfo>, partition: Option<string>) returns (r: Report)
    ensures r == ReportOf(Kept(nodes, partition))
  {
    hide AddNode, Selected;
    r := EMPTY;
    for i := 0 to |nodes|
      invariant r == ReportOf(Kept(nodes[..i], partition))
    {
      assert nodes[..i + 1][..i] == nodes[..i];
      ghost var kept := Kept(nodes[..i], partition);
      if !Selected(nodes[i], partition) {
        assert Kept(nodes[..i + 1], partition) == kept;
        continue;
      }
      assert Kept(nodes[..i + 1], partition) == kept + [nodes[i]];
      ReportSnoc(kept, nodes[i]);
      r := AddNode(r, nodes[i]);
    }
    assert nodes[..|nodes|] == nodes;
  }

  // ---------- Conservation ----------

  function CountIn(nodes: seq<NodeInfo>, b: Bucket): nat {
    if nodes == [] then 0
    else CountIn(nodes[..|nodes| - 1], b) + if BucketOf(nodes[|nodes| - 1]) == b then 1 else 0
  }

  /** By how much the cores reported for MIXED nodes exceed the cores they have. */
  function MixedSurplus(nodes: seq<NodeInfo>): int {
    if nodes == [] then 0
    else
      var n := nodes[|nodes| - 1];
      MixedSurplus(nodes[..|nodes| - 1]) + if BucketOf(n).Mixed? then n.allocCpus + n.allocIdleCpus - n.cpus else 0
  }

  lemma AddedCores(c: Counts, n: NodeInfo)
    ensures Total(AddCores(c, n)) ==
            Total(c) + n.cpus + if BucketOf(n).Mixed? then n.allocCpus + n.allocIdleCpus - n.cpus else 0
  {
    TotalOfAdd(c, Allocated, n.allocCpus);
    TotalOfAdd(Add(c, Allocated, n.allocCpus), Idle, n.allocIdleCpus);
    TotalOfAdd(c, BucketOf(n), n.cpus);
    hide Total, Add, BucketOf;
  }

  lemma AddedGpus(c: Counts, n: NodeInfo)
    ensures Total(AddGpus(c, n)) == Total(c) + n.gpus
  {
    TotalOfAdd(c, Allocated, n.usedGpus);
    TotalOfAdd(Add(c, Allocated, n.usedGpus), Idle, n.gpus - n.usedGpus);
    TotalOfAdd(c, BucketOf(n), n.gpus);
    hide Total, Add, BucketOf;
  }

  lemma AddedMemory(r: Report, n: NodeInfo)
    ensures var s := AddNode(r, n);
            && s.idleMemory + s.allocatedMemory - s.memoryTotal == r.idleMemory + r.allocatedMemory - r.memoryTotal
            && s.idleMemory >= r.idleMemory && s.allocatedMemory >= r.allocatedMemory
  {
    var a, m := AllocatedMemory(n), Max0(n.realMemory);
    assert Max0(m - a) == m - a;
    assert (m - a) as real / 1024.0 + a as real / 1024.0 == m as real / 1024.0;
    hide AddCores, AddGpus, Add, AllocatedMemory, Max0;
  }

  /** Nodes, GPUs and memory are conserved for any node list; cores are off by exactly what MIXED nodes report
      beyond their cores, so they are conserved exactly when that comes to zero. */
  lemma {:induction false} ResourcesConserved(nodes: seq<NodeInfo>)
    ensures var r := ReportOf(nodes);
            && Total(r.nodes) == r.nodesTotal == |nodes|
            && Total(r.gpus) == r.gpusTotal
            && Total(r.cores) == r.coresTotal + MixedSurplus(nodes)
            && (Total(r.cores) == r.coresTotal <==> MixedSurplus(nodes) == 0)
            && r.idleMemory + r.allocatedMemory == r.memoryTotal
            && r.idleMemory >= 0.0 && r.allocatedMemory >= 0.0
  {
    if nodes != [] {
      var front, n := nodes[..|nodes| - 1], nodes[|nodes| - 1];
      ResourcesConserved(front);
      var r := ReportOf(front);
      TotalOfAdd(r.nodes, BucketOf(n), 1);
      AddedCores(r.cores, n);
      AddedGpus(r.gpus, n);
      AddedMemory(r, n);
      assert ReportOf(nodes) == AddNode(r, n);
      hide Total, Add, BucketOf, AddCores, AddGpus, AllocatedMemory, Max0, ReportOf;
    }
  }

  // ---------- What each figure adds up ----------

  function SumOf(nodes: seq<NodeInfo>, share: NodeInfo -> int): int {
    if nodes == [] then 0 else SumOf(nodes[..|nodes| - 1], share) + share(nodes[|nodes| - 1])
  }

  /** The cores of a node a bucket is given: all to its own, but those of a MIXED node to two others. */
  function CoreShare(b: Bucket): NodeInfo -> int {
    n =>
      if BucketOf(n) == Mixed then (if b == Allocated then n.allocCpus else if b == Idle then n.allocIdleCpus else 0)
      else if b == BucketOf(n) then n.cpus else 0
  }

  /** The GPUs of a node a bucket is given: those of MIXED and ALLOCATED nodes are divided into used and idle ones. */
  function GpuShare(b: Bucket): NodeInfo -> int {
    n =>
      if BucketOf(n) in {Mixed, Allocated}
      then (if b == Allocated then n.usedGpus else if b == Idle then n.gpus - n.usedGpus else 0)
      else if b == BucketOf(n) then n.gpus else 0
  }

  /** A node's memory: nothing when it reports none, and no more of it allocated than there is. */
  function MemoryOf(n: NodeInfo): int {
    if n.realMemory < 0 then 0 else n.realMemory
  }

  function AllocatedOf(n: NodeInfo): int {
    if n.allocMemory <= 0 then 0 else if n.allocMemory > MemoryOf(n) then MemoryOf(n) else n.allocMemory
  }

  function CpusOf(n: NodeInfo): int { n.cpus }

  function GpusOf(n: NodeInfo): int { n.gpus }

  lemma MemoryAdded(r: Report, n: NodeInfo)
    ensures AddNode(r, n).memoryTotal * 1024.0 == r.memoryTotal * 1024.0 + MemoryOf(n) as real
    ensures AddNode(r, n).allocatedMemory * 1024.0 == r.allocatedMemory * 1024.0 + AllocatedOf(n) as real
  {
    hide AddCores, AddGpus, Add;
    assert Max0(n.realMemory) == MemoryOf(n) && AllocatedMemory(n) == AllocatedOf(n);
  }

  lemma SharesAdded(r: Report, n: NodeInfo, b: Bucket)
    ensures AddNode(r, n).cores(b) == r.cores(b) + CoreShare(b)(n)
    ensures AddNode(r, n).gpus(b) == r.gpus(b) + GpuShare(b)(n)
  {
    hide BucketOf, AllocatedMemory, Max0;
  }

  /** Every figure of the report is the sum of what each node gives it; memory is in gigabytes. */
  lemma {:induction false} ReportAddsUp(nodes: seq<NodeInfo>, b: Bucket)
    ensures var r := ReportOf(nodes);
            && r.cores(b) == SumOf(nodes, CoreShare(b)) && r.gpus(b) == SumOf(nodes, GpuShare(b))
            && r.coresTotal == SumOf(nodes, CpusOf) && r.gpusTotal == SumOf(nodes, GpusOf)
            && r.memoryTotal * 1024.0 == SumOf(nodes, MemoryOf) as real
            && r.allocatedMemory * 1024.0 == SumOf(nodes, AllocatedOf) as real
  {
    if nodes != [] {
      var front, n := nodes[..|nodes| - 1], nodes[|nodes| - 1];
      ReportAddsUp(front, b);
      MemoryAdded(ReportOf(front), n);
      SharesAdded(ReportOf(front), n, b);
      assert ReportOf(nodes) == AddNode(ReportOf(front), n);
      hide ReportOf, AddCores, AddGpus, Add, MemoryOf, AllocatedOf, CoreShare, GpuShare, Max0, AllocatedMemory,
        BucketOf;
    }
  }

  /** Each bucket counts exactly the nodes whose first matching state is its own. */
  lemma {:induction false} BucketsCountNodes(nodes: seq<NodeInfo>, b: Bucket)
    ensures ReportOf(nodes).nodes(b) == CountIn(nodes, b)
  {
    if nodes != [] {
      BucketsCountNodes(nodes[..|nodes| - 1], b);
      hide BucketOf, AddCores, AddGpus, AllocatedMemory, Max0;
    }
  }
}
