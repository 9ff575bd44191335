/** The metrics collector: what the nodes offer, what the pods take, what the instructions hold. */
module Collector {
  import opened Base
  import opened Api
  import opened Reconcilers
  import opened Sums

  datatype Resource = CPU | Memory | GPU | OtherResource(name: string)

  /** Amounts in one smallest unit per resource, so that addition is exact. */
  type ResourceList = map<Resource, int>

  datatype ConditionStatus = True | False | Unknown

  datatype Condition = Condition(isReady: bool, status: ConditionStatus)

  datatype Node = Node(conditions: seq<Condition>, capacity: ResourceList, allocatable: ResourceList)

  datatype Phase = Pending | Running | Succeeded | PodFailed | PhaseUnknown

  datatype Pod = Pod(
    phase: Phase,
    containers: seq<ResourceList>,
    initContainers: seq<ResourceList>,
    overhead: ResourceList)

  datatype Quantities = Quantities(cpu: int, memory: int, gpu: Option<int>)

  datatype Metrics = Metrics(
    capacity: Quantities,
    allocatable: Quantities,
    allocation: Quantities,
    available: Quantities)

  datatype CollectError = ListNodes | NoNodes | ListPods | ListInstructions

  datatype Result<+T> = Ok(value: T) | Err(error: CollectError)

  function Amount(list: ResourceList, r: Resource): int {
    if r in list then list[r] else 0
  }

  // ---------------------------------------------------------------------------------------------
  // What is being computed
  // ---------------------------------------------------------------------------------------------

  /** The first Ready condition decides; a node without one is not ready. */
  predicate IsReady(n: Node) {
    exists i :: 0 <= i < |n.conditions| && n.conditions[i] == Condition(true, True)
             && forall j :: 0 <= j < i ==> !n.conditions[j].isReady
  }

  function Offer(r: Resource): Node -> int {
    (n: Node) => if IsReady(n) then Amount(n.allocatable, r) else 0
  }

  function Size(r: Resource): Node -> int {
    (n: Node) => if IsReady(n) then Amount(n.capacity, r) else 0
  }

  predicate Active(p: Pod) {
    p.phase == Running || p.phase == Pending
  }

  function AmountOf(r: Resource): ResourceList -> int {
    (c: ResourceList) => Amount(c, r)
  }

  /** The least number that is neither negative nor below any init container's request. */
  predicate IsInitPeak(p: Pod, r: Resource, m: int) {
    && m >= 0
    && (forall i :: 0 <= i < |p.initContainers| ==> Amount(p.initContainers[i], r) <= m)
    && (m == 0 || exists i :: 0 <= i < |p.initContainers| && Amount(p.initContainers[i], r) == m)
  }

  function InitPeak(inits: seq<ResourceList>, r: Resource): int {
    if inits == [] then 0 else Max(InitPeak(inits[..|inits| - 1], r), Amount(inits[|inits| - 1], r))
  }

  lemma {:induction false} InitPeakIsPeak(p: Pod, r: Resource)
    ensures IsInitPeak(p, r, InitPeak(p.initContainers, r))
    decreases |p.initContainers|
  {
    if p.initContainers != [] {
      var last := |p.initContainers| - 1;
      var shorter := p.(initContainers := p.initContainers[..last]);
      InitPeakIsPeak(shorter, r);
      var m := InitPeak(p.initContainers, r);
      if m != 0 && m != Amount(p.initContainers[last], r) {
        var i :| 0 <= i < last && Amount(shorter.initContainers[i], r) == m;
        assert Amount(p.initContainers[i], r) == m;
      }
    }
  }

  /** max(sum of containers, peak of init containers) + overhead. */
  function PodShare(p: Pod, r: Resource): int {
    Max(Sum(p.containers, AmountOf(r)), InitPeak(p.initContainers, r)) + Amount(p.overhead, r)
  }

  function ActiveShare(r: Resource): Pod -> int {
    (p: Pod) => if Active(p) then PodShare(p, r) else 0
  }

  predicate Mentions(lists: seq<ResourceList>) {
    exists i :: 0 <= i < |lists| && GPU in lists[i]
  }

  predicate PodMentionsGPU(p: Pod) {
    Active(p) && (Mentions(p.containers) || Mentions(p.initContainers) || GPU in p.overhead)
  }

  predicate SomePodMentionsGPU(pods: seq<Pod>) {
    exists i :: 0 <= i < |pods| && PodMentionsGPU(pods[i])
  }

  predicate NodeHasGPU(n: Node) {
    IsReady(n) && GPU in n.capacity
  }

  predicate SomeNodeHasGPU(nodes: seq<Node>) {
    exists i :: 0 <= i < |nodes| && NodeHasGPU(nodes[i])
  }

  /** How quantities are read, for the strings a spec carries. */
  type Parser = string -> Option<int>

  predicate Counts(i: Instruction, now: Time) {
    i.status.flag && !Expired(i.spec, now)
  }

  /** A quantity that is present but cannot be read. */
  predicate Broken(parse: Parser, text: string) {
    text != "" && parse(text).None?
  }

  function Read(parse: Parser, text: string): int {
    if text == "" || parse(text).None? then 0 else parse(text).value
  }

  function HeldCPU(parse: Parser, i: Instruction): int {
    Read(parse, i.spec.cpu)
  }

  /** An unreadable CPU request takes the memory of that instruction out of the sum as well. */
  function HeldMemory(parse: Parser, i: Instruction): int {
    if Broken(parse, i.spec.cpu) then 0 else Read(parse, i.spec.memory)
  }

  function CountedCPU(parse: Parser, now: Time): Instruction -> int {
    (i: Instruction) => if Counts(i, now) then HeldCPU(parse, i) else 0
  }

  function CountedMemory(parse: Parser, now: Time): Instruction -> int {
    (i: Instruction) => if Counts(i, now) then HeldMemory(parse, i) else 0
  }

  function Allocated(pods: seq<Pod>): Quantities {
    Quantities(
      Sum(pods, ActiveShare(CPU)),
      Sum(pods, ActiveShare(Memory)),
      if SomePodMentionsGPU(pods) then Some(Sum(pods, ActiveShare(GPU))) else None)
  }

  function Reserved(parse: Parser, held: seq<Instruction>, now: Time): Quantities {
    Quantities(Sum(held, CountedCPU(parse, now)), Sum(held, CountedMemory(parse, now)), None)
  }

  function Capacity(nodes: seq<Node>): Quantities {
    Quantities(
      Sum(nodes, Size(CPU)), Sum(nodes, Size(Memory)),
      if SomeNodeHasGPU(nodes) then Some(Sum(nodes, Size(GPU))) else None)
  }

  /** GPUs are offered only where some ready node reports them in its capacity. */
  function Allocatable(nodes: seq<Node>): Quantities {
    Quantities(
      Sum(nodes, Offer(CPU)), Sum(nodes, Offer(Memory)),
      if SomeNodeHasGPU(nodes) then Some(Sum(nodes, Offer(GPU))) else None)
  }

  function OrZero(o: Option<int>): int {
    if o.Some? then o.value else 0
  }

  // ---------------------------------------------------------------------------------------------
  // How the collector computes it
  // ---------------------------------------------------------------------------------------------

  method IsNodeReady(n: Node) returns (ready: bool)
    ensures ready == IsReady(n)
  {
    for i := 0 to |n.conditions|
      invariant forall j :: 0 <= j < i ==> !n.conditions[j].isReady
    {
      if n.conditions[i].isReady {
        return n.conditions[i].status == True;
      }
    }
    return false;
  }

  /** The loop over a pod's containers; `flag` is the sticky hasGPU as it stands before it. */
  method SumContainers(containers: seq<ResourceList>, flag: bool)
    returns (cpu: int, memory: int, gpu: int, hasGPU: bool)
    ensures cpu == Sum(containers, AmountOf(CPU)) && memory == Sum(containers, AmountOf(Memory))
    ensures gpu == Sum(containers, AmountOf(GPU))
    ensures hasGPU <==> flag || Mentions(containers)
    ensures !hasGPU ==> gpu == 0
  {
    cpu, memory, gpu, hasGPU := 0, 0, 0, flag;
    for c := 0 to |containers|
      invariant cpu == Sum(containers[..c], AmountOf(CPU)) && memory == Sum(containers[..c], AmountOf(Memory))
      invariant gpu == Sum(containers[..c], AmountOf(GPU))
      invariant hasGPU <==> flag || Mentions(containers[..c])
      invariant !hasGPU ==> gpu == 0
    {
      var requests := containers[c];
      SumStep(containers, c, AmountOf(CPU));
      SumStep(containers, c, AmountOf(Memory));
      SumStep(containers, c, AmountOf(GPU));
      MentionsStep(containers, c);
      if CPU in requests {
        cpu := cpu + requests[CPU];
      }
      if Memory in requests {
        memory := memory + requests[Memory];
      }
      if GPU in requests {
        gpu := gpu + requests[GPU];
        hasGPU := true;
      }
    }
    assert containers[..|containers|] == containers;
  }

  /** The loop over a pod's init containers. */
  method MaxInitContainers(inits: seq<ResourceList>, flag: bool)
    returns (cpu: int, memory: int, gpu: int, hasGPU: bool)
    ensures cpu == InitPeak(inits, CPU) && memory == InitPeak(inits, Memory) && gpu == InitPeak(inits, GPU)
    ensures hasGPU <==> flag || Mentions(inits)
    ensures !hasGPU ==> gpu == 0
  {
    cpu, memory, gpu, hasGPU := 0, 0, 0, flag;
    for c := 0 to |inits|
      invariant cpu == InitPeak(inits[..c], CPU) && memory == InitPeak(inits[..c], Memory)
      invariant gpu == InitPeak(inits[..c], GPU)
      invariant cpu >= 0 && memory >= 0 && gpu >= 0
      invariant hasGPU <==> flag || Mentions(inits[..c])
      invariant !hasGPU ==> gpu == 0
    {
      var requests := inits[c];
      assert inits[..c + 1][..c] == inits[..c];
      MentionsStep(inits, c);
      if CPU in requests {
        if requests[CPU] > cpu {
          cpu := requests[CPU];
        }
      }
      if Memory in requests {
        if requests[Memory] > memory {
          memory := requests[Memory];
        }
      }
      if GPU in requests {
        if requests[GPU] > gpu {
          gpu := requests[GPU];
        }
        hasGPU := true;
      }
    }
    assert inits[..|inits|] == inits;
  }

  method CalculateAllocated(pods: seq<Pod>) returns (allocation: Quantities)
    ensures allocation == Allocated(pods)
  {
    var cpu, memory, gpu, hasGPU := 0, 0, 0, false;
    for i := 0 to |pods|
      invariant cpu == Sum(pods[..i], ActiveShare(CPU))
      invariant memory == Sum(pods[..i], ActiveShare(Memory))
      invariant gpu == Sum(pods[..i], ActiveShare(GPU))
      invariant hasGPU <==> SomePodMentionsGPU(pods[..i])
    {
      var pod := pods[i];
      SumStep(pods, i, ActiveShare(CPU));
      SumStep(pods, i, ActiveShare(Memory));
      SumStep(pods, i, ActiveShare(GPU));
      MentionStep(pods, i);
      if pod.phase != Running && pod.phase != Pending {
        continue;
      }
      var containersCPU, containersMemory, containersGPU;
      containersCPU, containersMemory, containersGPU, hasGPU := SumContainers(pod.containers, hasGPU);
      var initCPUMax, initMemoryMax, initGPUMax;
      initCPUMax, initMemoryMax, initGPUMax, hasGPU := MaxInitContainers(pod.initContainers, hasGPU);
      cpu := cpu + if initCPUMax > containersCPU then initCPUMax else containersCPU;
      memory := memory + if initMemoryMax > containersMemory then initMemoryMax else containersMemory;
      if hasGPU {
        gpu := gpu + if initGPUMax > containersGPU then initGPUMax else containersGPU;
      }
      if CPU in pod.overhead {
        cpu := cpu + pod.overhead[CPU];
      }
      if Memory in pod.overhead {
        memory := memory + pod.overhead[Memory];
      }
      if GPU in pod.overhead {
        gpu := gpu + pod.overhead[GPU];
        hasGPU := true;
      }
    }
    assert pods[..|pods|] == pods;
    allocation := Quantities(cpu, memory, if hasGPU then Some(gpu) else None);
  }

  method CalculateReserved(parse: Parser, held: seq<Instruction>, now: Time) returns (reserved: Quantities)
    ensures reserved == Reserved(parse, held, now)
  {
    var cpu, memory := 0, 0;
    for i := 0 to |held|
      invariant cpu == Sum(held[..i], CountedCPU(parse, now))
      invariant memory == Sum(held[..i], CountedMemory(parse, now))
    {
      SumStep(held, i, CountedCPU(parse, now));
      SumStep(held, i, CountedMemory(parse, now));
      var instruction := held[i];
      if !instruction.status.flag {
        continue;
      }
      if instruction.spec.expiresAt.Some? && instruction.spec.expiresAt.value < now {
        continue;
      }
      if instruction.spec.cpu != "" {
        var quantity := parse(instruction.spec.cpu);
        if quantity.None? {
          continue;
        }
        cpu := cpu + quantity.value;
      }
      if instruction.spec.memory != "" {
        var quantity := parse(instruction.spec.memory);
        if quantity.None? {
          continue;
        }
        memory := memory + quantity.value;
      }
    }
    assert held[..|held|] == held;
    return Quantities(cpu, memory, None);
  }

  /** The loop over the nodes. */
  method SumNodes(nodes: seq<Node>) returns (capacity: Quantities, allocatable: Quantities, hasGPU: bool)
    ensures capacity == Capacity(nodes) && allocatable == Allocatable(nodes)
    ensures hasGPU == SomeNodeHasGPU(nodes)
  {
    var capCPU, capMemory, capGPU := 0, 0, 0;
    var allCPU, allMemory, allGPU := 0, 0, 0;
    hasGPU := false;
    for i := 0 to |nodes|
      invariant capCPU == Sum(nodes[..i], Size(CPU)) && capMemory == Sum(nodes[..i], Size(Memory))
      invariant capGPU == Sum(nodes[..i], Size(GPU)) && allGPU == Sum(nodes[..i], Offer(GPU))
      invariant allCPU == Sum(nodes[..i], Offer(CPU)) && allMemory == Sum(nodes[..i], Offer(Memory))
      invariant hasGPU <==> SomeNodeHasGPU(nodes[..i])
    {
      var node := nodes[i];
      SumStep(nodes, i, Size(CPU));
      SumStep(nodes, i, Size(Memory));
      SumStep(nodes, i, Size(GPU));
      SumStep(nodes, i, Offer(CPU));
      SumStep(nodes, i, Offer(Memory));
      SumStep(nodes, i, Offer(GPU));
      NodeStep(nodes, i);
      var ready := IsNodeReady(node);
      if !ready {
        continue;
      }
      if CPU in node.capacity {
        capCPU := capCPU + node.capacity[CPU];
      }
      if Memory in node.capacity {
        capMemory := capMemory + node.capacity[Memory];
      }
      if GPU in node.capacity {
        capGPU := capGPU + node.capacity[GPU];
        hasGPU := true;
      }
      if CPU in node.allocatable {
        allCPU := allCPU + node.allocatable[CPU];
      }
      if Memory in node.allocatable {
        allMemory := allMemory + node.allocatable[Memory];
      }
      if GPU in node.allocatable {
        allGPU := allGPU + node.allocatable[GPU];
      }
    }
    assert nodes[..|nodes|] == nodes;
    capacity := Quantities(capCPU, capMemory, if hasGPU then Some(capGPU) else None);
    allocatable := Quantities(allCPU, allMemory, if hasGPU then Some(allGPU) else None);
  }

  /** One reading of the cluster; None where the API could not be listed. */
  datatype Snapshot = Snapshot(
    nodes: Option<seq<Node>>,
    pods: Option<seq<Pod>>,
    held: Option<seq<Instruction>>,
    now: Time)

  predicate Complete(s: Snapshot) {
    s.nodes.Some? && s.nodes.value != [] && s.pods.Some? && s.held.Some?
  }

  /** What the three sums leave over; never clamped, so it may be negative. */
  function Available(allocatable: Quantities, allocation: Quantities, reserved: Quantities): Quantities {
    Quantities(
      allocatable.cpu - allocation.cpu - reserved.cpu,
      allocatable.memory - allocation.memory - reserved.memory,
      if allocatable.gpu.None? then None
      else Some(allocatable.gpu.value - OrZero(allocation.gpu) - OrZero(reserved.gpu)))
  }

  function Collected(parse: Parser, s: Snapshot): Metrics
    requires Complete(s)
  {
    var allocatable, allocation := Allocatable(s.nodes.value), Allocated(s.pods.value);
    Metrics(
      Capacity(s.nodes.value), allocatable, allocation,
      Available(allocatable, allocation, Reserved(parse, s.held.value, s.now)))
  }

  method CollectClusterResources(parse: Parser, s: Snapshot) returns (r: Result<Metrics>)
    ensures r.Ok? <==> Complete(s)
    ensures r.Ok? ==> r.value == Collected(parse, s)
    ensures r.Err? ==> r.error ==
                       if s.nodes.None? then ListNodes else if s.nodes.value == [] then NoNodes
                       else if s.pods.None? then ListPods else ListInstructions
  {
    if s.nodes.None? {
      return Err(ListNodes);
    }
    if |s.nodes.value| == 0 {
      return Err(NoNodes);
    }
    var capacity, allocatable, hasGPU := SumNodes(s.nodes.value);
    if s.pods.None? {
      return Err(ListPods);
    }
    var allocation := CalculateAllocated(s.pods.value);
    if s.held.None? {
      return Err(ListInstructions);
    }
    var reserved := CalculateReserved(parse, s.held.value, s.now);
    var available := Quantities(allocatable.cpu, allocatable.memory, None);
    available := available.(cpu := available.cpu - allocation.cpu, memory := available.memory - allocation.memory);
    available := available.(cpu := available.cpu - reserved.cpu, memory := available.memory - reserved.memory);
    if hasGPU && allocatable.gpu.Some? {
      var gpu := allocatable.gpu.value;
      if allocation.gpu.Some? {
        gpu := gpu - allocation.gpu.value;
      }
      gpu := gpu - OrZero(reserved.gpu);
      available := available.(gpu := Some(gpu));
    }
    return Ok(Metrics(capacity, allocatable, allocation, available));
  }

  lemma NodeStep(nodes: seq<Node>, i: nat)
    requires i < |nodes|
    ensures SomeNodeHasGPU(nodes[..i + 1]) <==> SomeNodeHasGPU(nodes[..i]) || NodeHasGPU(nodes[i])
  {
  }

  lemma MentionStep(pods: seq<Pod>, i: nat)
    requires i < |pods|
    ensures SomePodMentionsGPU(pods[..i + 1]) <==> SomePodMentionsGPU(pods[..i]) || PodMentionsGPU(pods[i])
  {
  }

  lemma MentionsStep(lists: seq<ResourceList>, i: nat)
    requires i < |lists|
    ensures Mentions(lists[..i + 1]) <==> Mentions(lists[..i]) || GPU in lists[i]
  {
  }

  // ---------------------------------------------------------------------------------------------
  // What the result means
  // ---------------------------------------------------------------------------------------------

  /** What each instruction adds to the reserved total: its requests if it is enforced and not past its
      expiry, where a CPU request that cannot be read drops the memory too and an unreadable memory
      request drops nothing else.  GPUs are never reserved. */
  lemma ReservedShare(parse: Parser, held: seq<Instruction>, n: nat, now: Time)
    requires n < |held|
    ensures
      var all, others := Reserved(parse, held, now), Reserved(parse, Without(held, n), now);
      var spec := held[n].spec;
      var counted := held[n].status.flag && (spec.expiresAt.None? || now <= spec.expiresAt.value);
      var cpu := if spec.cpu == "" then Some(0) else parse(spec.cpu);
      var memory := if spec.memory == "" then Some(0) else parse(spec.memory);
      && all.cpu == others.cpu + (if counted && cpu.Some? then cpu.value else 0)
      && all.memory == others.memory + (if counted && cpu.Some? && memory.Some? then memory.value else 0)
      && all.gpu == None
    ensures Reserved(parse, [], now) == Quantities(0, 0, None)
  {
    SumRemove(held, n, CountedCPU(parse, now));
    SumRemove(held, n, CountedMemory(parse, now));
  }

  /** Apart from its overhead, a pod takes the least amount that covers its containers together and each
      init container alone, and is not negative. */
  lemma ShareCoversRequests(p: Pod, r: Resource)
    ensures
      var share := PodShare(p, r) - (if r in p.overhead then p.overhead[r] else 0);
      var together := Sum(p.containers, (c: ResourceList) => if r in c then c[r] else 0);
      && share >= 0 && share >= together
      && (forall i :: 0 <= i < |p.initContainers| && r in p.initContainers[i] ==> share >= p.initContainers[i][r])
      && (|| share == 0
          || share == together
          || exists i :: 0 <= i < |p.initContainers| && r in p.initContainers[i] && share == p.initContainers[i][r])
  {
    InitPeakIsPeak(p, r);
    SumEq(p.containers, AmountOf(r), (c: ResourceList) => if r in c then c[r] else 0);
    var peak := InitPeak(p.initContainers, r);
    forall i | 0 <= i < |p.initContainers| && r in p.initContainers[i] ensures peak >= p.initContainers[i][r] {
      assert Amount(p.initContainers[i], r) <= peak;
    }
    if peak != 0 {
      var i :| 0 <= i < |p.initContainers| && Amount(p.initContainers[i], r) == peak;
      assert r in p.initContainers[i];
    }
  }

  lemma UnmentionedIsFree(p: Pod)
    requires !PodMentionsGPU(p)
    ensures ActiveShare(GPU)(p) == 0
  {
    if Active(p) {
      InitPeakIsPeak(p, GPU);
      forall c | c in p.containers ensures AmountOf(GPU)(c) == 0 {
        var i :| 0 <= i < |p.containers| && p.containers[i] == c;
      }
      SumZero(p.containers, AmountOf(GPU));
    }
  }

  lemma NoMentionNoGPU(pods: seq<Pod>)
    requires !SomePodMentionsGPU(pods)
    ensures Sum(pods, ActiveShare(GPU)) == 0
  {
    forall p | p in pods ensures ActiveShare(GPU)(p) == 0 {
      var i :| 0 <= i < |pods| && pods[i] == p;
      UnmentionedIsFree(p);
    }
    SumZero(pods, ActiveShare(GPU));
  }

  lemma MentionWithout(pods: seq<Pod>, n: nat)
    requires n < |pods|
    ensures SomePodMentionsGPU(pods) <==> SomePodMentionsGPU(Without(pods, n)) || PodMentionsGPU(pods[n])
  {
    var rest := Without(pods, n);
    if SomePodMentionsGPU(pods) {
      var i :| 0 <= i < |pods| && PodMentionsGPU(pods[i]);
      assert i != n ==> PodMentionsGPU(rest[if i < n then i else i - 1]);
    }
    if SomePodMentionsGPU(rest) {
      var i :| 0 <= i < |rest| && PodMentionsGPU(rest[i]);
      assert PodMentionsGPU(pods[if i < n then i else i + 1]);
    }
  }

  predicate Lists(lists: seq<ResourceList>, r: Resource) {
    exists i :: 0 <= i < |lists| && r in lists[i]
  }

  /** What each pod adds to the allocated total: its share if it is running or pending, else nothing; and
      the GPU figure is there exactly if some such pod lists GPUs anywhere. */
  lemma PodContribution(pods: seq<Pod>, n: nat)
    requires n < |pods|
    ensures
      var p, all, others := pods[n], Allocated(pods), Allocated(Without(pods, n));
      if p.phase == Running || p.phase == Pending then
        && all.cpu == others.cpu + PodShare(p, CPU) && all.memory == others.memory + PodShare(p, Memory)
        && OrZero(all.gpu) == OrZero(others.gpu) + PodShare(p, GPU)
        && (all.gpu.Some? <==>
              others.gpu.Some? || Lists(p.containers, GPU) || Lists(p.initContainers, GPU) || GPU in p.overhead)
      else all == others
    ensures Allocated([]) == Quantities(0, 0, None)
  {
    SumRemove(pods, n, ActiveShare(CPU));
    SumRemove(pods, n, ActiveShare(Memory));
    SumRemove(pods, n, ActiveShare(GPU));
    MentionWithout(pods, n);
    if !SomePodMentionsGPU(pods) {
      NoMentionNoGPU(pods);
    }
    if !SomePodMentionsGPU(Without(pods, n)) {
      NoMentionNoGPU(Without(pods, n));
    }
    assert Mentions(pods[n].containers) <==> Lists(pods[n].containers, GPU);
    assert Mentions(pods[n].initContainers) <==> Lists(pods[n].initContainers, GPU);
  }

  /** A node is as ready as the first of its Ready conditions says, and not ready without one. */
  lemma FirstReadyConditionDecides(n: Node, i: nat)
    requires i <= |n.conditions| && forall j :: 0 <= j < i ==> !n.conditions[j].isReady
    ensures i == |n.conditions| ==> !IsReady(n)
    ensures i < |n.conditions| && n.conditions[i].isReady ==> (IsReady(n) <==> n.conditions[i].status == True)
  {
  }

  lemma GPUNodeWithout(nodes: seq<Node>, n: nat)
    requires n < |nodes|
    ensures SomeNodeHasGPU(nodes) <==> SomeNodeHasGPU(Without(nodes, n)) || NodeHasGPU(nodes[n])
  {
    var rest := Without(nodes, n);
    if SomeNodeHasGPU(nodes) {
      var i :| 0 <= i < |nodes| && NodeHasGPU(nodes[i]);
      assert i != n ==> NodeHasGPU(rest[if i < n then i else i - 1]);
    }
    if SomeNodeHasGPU(rest) {
      var i :| 0 <= i < |rest| && NodeHasGPU(rest[i]);
      assert NodeHasGPU(nodes[if i < n then i else i + 1]);
    }
  }

  lemma NoGPUNode(nodes: seq<Node>)
    requires !SomeNodeHasGPU(nodes)
    ensures Sum(nodes, Size(GPU)) == 0
  {
    forall n | n in nodes ensures Size(GPU)(n) == 0 {
      var i :| 0 <= i < |nodes| && nodes[i] == n;
      assert !NodeHasGPU(nodes[i]);
    }
    SumZero(nodes, Size(GPU));
  }

  /** What each node adds: nothing unless it is ready, else its capacity to the capacity and what it lets be
      allocated to the allocatable; GPU figures are there exactly if some ready node's capacity lists them. */
  lemma NodeContribution(nodes: seq<Node>, n: nat)
    requires n < |nodes|
    ensures
      var node, rest := nodes[n], Without(nodes, n);
      var cap, cap', all, all' := Capacity(nodes), Capacity(rest), Allocatable(nodes), Allocatable(rest);
      if IsReady(node) then
        && cap.cpu == cap'.cpu + (if CPU in node.capacity then node.capacity[CPU] else 0)
        && cap.memory == cap'.memory + (if Memory in node.capacity then node.capacity[Memory] else 0)
        && all.cpu == all'.cpu + (if CPU in node.allocatable then node.allocatable[CPU] else 0)
        && all.memory == all'.memory + (if Memory in node.allocatable then node.allocatable[Memory] else 0)
        && (cap.gpu.Some? <==> cap'.gpu.Some? || GPU in node.capacity) && (all.gpu.Some? <==> cap.gpu.Some?)
        && OrZero(cap.gpu) == OrZero(cap'.gpu) + (if GPU in node.capacity then node.capacity[GPU] else 0)
        && (all'.gpu.Some? ==>
              all.gpu.value == all'.gpu.value + (if GPU in node.allocatable then node.allocatable[GPU] else 0))
      else cap == cap' && all == all'
    ensures Capacity([]) == Quantities(0, 0, None) && Allocatable([]) == Quantities(0, 0, None)
  {
    SumRemove(nodes, n, Size(CPU));
    SumRemove(nodes, n, Size(Memory));
    SumRemove(nodes, n, Size(GPU));
    SumRemove(nodes, n, Offer(CPU));
    SumRemove(nodes, n, Offer(Memory));
    SumRemove(nodes, n, Offer(GPU));
    GPUNodeWithout(nodes, n);
    if !SomeNodeHasGPU(Without(nodes, n)) {
      NoGPUNode(Without(nodes, n));
    }
  }

  /** Nothing is lost or counted twice: what the ready nodes offer is exactly what is available, what
      active pods take and what enforced, unexpired instructions hold. */
  lemma Conservation(parse: Parser, s: Snapshot)
    requires Complete(s)
    ensures
      var m, reserved := Collected(parse, s), Reserved(parse, s.held.value, s.now);
      && m.capacity == Capacity(s.nodes.value) && m.allocatable == Allocatable(s.nodes.value)
      && m.allocation == Allocated(s.pods.value)
      && m.available.cpu + m.allocation.cpu + reserved.cpu == m.allocatable.cpu == Sum(s.nodes.value, Offer(CPU))
      && m.available.memory + m.allocation.memory + reserved.memory
         == m.allocatable.memory == Sum(s.nodes.value, Offer(Memory))
      && (m.available.gpu.Some? <==> SomeNodeHasGPU(s.nodes.value))
      && (m.available.gpu.Some? ==> m.available.gpu.value + OrZero(m.allocation.gpu) == Sum(s.nodes.value, Offer(GPU)))
  {
  }

  /** A pod up to the order of its containers and of its init containers. */
  datatype PodBag = PodBag(
    phase: Phase,
    containers: multiset<ResourceList>,
    initContainers: multiset<ResourceList>,
    overhead: ResourceList)

  function Bag(p: Pod): PodBag {
    PodBag(p.phase, multiset(p.containers), multiset(p.initContainers), p.overhead)
  }

  function Identity<T>(): T -> T {
    (x: T) => x
  }

  lemma MapIdentity<T>(xs: seq<T>)
    ensures Map(xs, Identity()) == xs
  {
  }

  lemma MentionsInBag(lists: seq<ResourceList>, lists': seq<ResourceList>)
    requires multiset(lists) == multiset(lists') && Mentions(lists)
    ensures Mentions(lists')
  {
    var i :| 0 <= i < |lists| && GPU in lists[i];
    var _ := Relocated(lists, lists', i);
  }

  lemma PeakInBag(p: Pod, q: Pod, r: Resource)
    requires multiset(p.initContainers) == multiset(q.initContainers)
    ensures InitPeak(p.initContainers, r) <= InitPeak(q.initContainers, r)
  {
    InitPeakIsPeak(p, r);
    InitPeakIsPeak(q, r);
    var m := InitPeak(p.initContainers, r);
    if m != 0 {
      var i :| 0 <= i < |p.initContainers| && Amount(p.initContainers[i], r) == m;
      var j := Relocated(p.initContainers, q.initContainers, i);
      assert Amount(q.initContainers[j], r) == m;
    }
  }

  lemma SameBagSamePod(p: Pod, q: Pod, r: Resource)
    requires Bag(p) == Bag(q)
    ensures ActiveShare(r)(p) == ActiveShare(r)(q)
    ensures PodMentionsGPU(p) ==> PodMentionsGPU(q)
  {
    MapIdentity(p.containers);
    MapIdentity(q.containers);
    SumByKey(p.containers, q.containers, Identity(), AmountOf(r));
    PeakInBag(p, q, r);
    PeakInBag(q, p, r);
    if Mentions(p.containers) {
      MentionsInBag(p.containers, q.containers);
    }
    if Mentions(p.initContainers) {
      MentionsInBag(p.initContainers, q.initContainers);
    }
  }

  lemma PodsInAnyOrder(pods: seq<Pod>, pods': seq<Pod>)
    requires multiset(Map(pods, Bag)) == multiset(Map(pods', Bag))
    ensures Allocated(pods) == Allocated(pods')
  {
    forall r, p, q | p in pods && q in pods' && Bag(p) == Bag(q) ensures ActiveShare(r)(p) == ActiveShare(r)(q) {
      SameBagSamePod(p, q, r);
    }
    SumByKey(pods, pods', Bag, ActiveShare(CPU));
    SumByKey(pods, pods', Bag, ActiveShare(Memory));
    SumByKey(pods, pods', Bag, ActiveShare(GPU));
    GPUMentionInAnyOrder(pods, pods');
    GPUMentionInAnyOrder(pods', pods);
  }

  lemma GPUMentionInAnyOrder(pods: seq<Pod>, pods': seq<Pod>)
    requires multiset(Map(pods, Bag)) == multiset(Map(pods', Bag))
    ensures SomePodMentionsGPU(pods) ==> SomePodMentionsGPU(pods')
  {
    if SomePodMentionsGPU(pods) {
      var i :| 0 <= i < |pods| && PodMentionsGPU(pods[i]);
      var j := KeyFound(pods, pods', Bag, pods[i]);
      SameBagSamePod(pods[i], pods'[j], GPU);
    }
  }

  /** The metrics do not depend on the order in which the API lists nodes, pods, instructions, or the
      containers and init containers of each pod; nor does the presence of any GPU figure. */
  lemma OrderDoesNotMatter(parse: Parser, s: Snapshot, t: Snapshot)
    requires Complete(s) && Complete(t) && s.now == t.now
    requires multiset(s.nodes.value) == multiset(t.nodes.value)
    requires multiset(Map(s.pods.value, Bag)) == multiset(Map(t.pods.value, Bag))
    requires multiset(s.held.value) == multiset(t.held.value)
    ensures Collected(parse, s) == Collected(parse, t)
  {
    PodsInAnyOrder(s.pods.value, t.pods.value);
    NodesInAnyOrder(s.nodes.value, t.nodes.value);
    MapIdentity(s.held.value);
    MapIdentity(t.held.value);
    SumByKey(s.held.value, t.held.value, Identity(), CountedCPU(parse, s.now));
    SumByKey(s.held.value, t.held.value, Identity(), CountedMemory(parse, s.now));
  }

  lemma NodesInAnyOrder(nodes: seq<Node>, nodes': seq<Node>)
    requires multiset(nodes) == multiset(nodes')
    ensures Capacity(nodes) == Capacity(nodes') && Allocatable(nodes) == Allocatable(nodes')
  {
    MapIdentity(nodes);
    MapIdentity(nodes');
    SumByKey(nodes, nodes', Identity(), Size(CPU));
    SumByKey(nodes, nodes', Identity(), Size(Memory));
    SumByKey(nodes, nodes', Identity(), Size(GPU));
    SumByKey(nodes, nodes', Identity(), Offer(CPU));
    SumByKey(nodes, nodes', Identity(), Offer(Memory));
    SumByKey(nodes, nodes', Identity(), Offer(GPU));
    GPUNodeInAnyOrder(nodes, nodes');
    GPUNodeInAnyOrder(nodes', nodes);
  }

  lemma GPUNodeInAnyOrder(nodes: seq<Node>, nodes': seq<Node>)
    requires multiset(nodes) == multiset(nodes')
    ensures SomeNodeHasGPU(nodes) ==> SomeNodeHasGPU(nodes')
  {
    if SomeNodeHasGPU(nodes) {
      var i :| 0 <= i < |nodes| && NodeHasGPU(nodes[i]);
      var _ := Relocated(nodes, nodes', i);
    }
  }
}
