/** The legacy publish protocol: read the advertisement, carry its `reserved` section over, write it back
    at the version that was read, against a broker that keeps rewriting `reserved` meanwhile. */
module Publishing {
  import opened Base

  /** A section of the advertised resources, such as capacity or reserved; its contents do not matter. */
  type Section = string

  type Resources = map<string, Section>

  datatype Figures = Figures(capacity: Section, allocatable: Section, allocation: Section, available: Section)

  /** The stored advertisement; `resources` is None when the object has no such map. */
  datatype Record = Record(resources: Option<Resources>, version: nat)

  datatype Remote = Remote(record: Option<Record>, revision: nat)

  datatype GetAnswer = Got(record: Record) | GetError

  const RESERVED_KEY := "reserved"

  function ReservedIn(resources: Option<Resources>): Option<Section> {
    if resources.Some? && RESERVED_KEY in resources.value then Some(resources.value[RESERVED_KEY]) else None
  }

  /** What the broker's `reserved` currently says, absent when there is no advertisement. */
  function ReservedOf(r: Remote): Option<Section> {
    if r.record.Some? then ReservedIn(r.record.value.resources) else None
  }

  function FigureSections(f: Figures): Resources {
    map[
      "capacity" := f.capacity, "allocatable" := f.allocatable,
      "allocated" := f.allocation, "available" := f.available]
  }

  /** The four figures, and `reserved` as it was found. */
  function Built(f: Figures, captured: Option<Section>): Resources {
    if captured.Some? then FigureSections(f)[RESERVED_KEY := captured.value] else FigureSections(f)
  }

  function Write(r: Remote, resources: Option<Resources>): Remote {
    Remote(Some(Record(resources, r.revision)), r.revision + 1)
  }

  /** The write that follows a Get, landing on the store as it is by then. */
  predicate Lands(r: Remote, get: GetAnswer) {
    match get
    case GetError => r.record.None?
    case Got(record) => r.record.Some? && r.record.value.version == record.version
  }

  function Captured(get: GetAnswer): Option<Section> {
    if get.Got? then ReservedIn(get.record.resources) else None
  }

  function Published(r: Remote, f: Figures, get: GetAnswer): Remote {
    if Lands(r, get) then Write(r, Some(Built(f, Captured(get)))) else r
  }

  /** What the figures of a publish look like at the broker, name by name, beside `reserved` if any. */
  predicate Shows(r: Remote, f: Figures, reserved: Option<Section>) {
    && r.record.Some? && r.record.value.resources.Some?
    && var sections := r.record.value.resources.value;
       && sections.Keys
          == {"capacity", "allocatable", "allocated", "available"} + (if reserved.Some? then {"reserved"} else {})
       && sections["capacity"] == f.capacity && sections["allocatable"] == f.allocatable
       && sections["allocated"] == f.allocation && sections["available"] == f.available
       && (reserved.Some? ==> sections["reserved"] == reserved.value)
  }

  /** What a Get, if it succeeded, showed under `reserved`. */
  predicate Found(get: GetAnswer, reserved: Option<Section>) {
    if get.Got? && get.record.resources.Some? && "reserved" in get.record.resources.value
    then reserved == Some(get.record.resources.value["reserved"])
    else reserved == None
  }

  /** A publish that lands shows its four figures and the `reserved` of its Get; one that does not leaves
      the record alone.  It lands exactly on the version it read or, after a failed Get, on nothing. */
  lemma PublishShowsFigures(r: Remote, f: Figures, get: GetAnswer, reserved: Option<Section>)
    requires Found(get, reserved)
    ensures
      var r' := Published(r, f, get);
      if (if get.GetError? then r.record == None else r.record.Some? && r.record.value.version == get.record.version)
      then Lands(r, get) && Shows(r', f, reserved) && r'.record.value.version == r.revision < r'.revision
      else !Lands(r, get) && r' == r
  {
  }

  class BrokerApi {
    var remote: Remote

    constructor ()
      ensures remote == Remote(None, 0)
    {
      remote := Remote(None, 0);
    }

    method Create(resources: Resources) returns (ok: bool)
      modifies this
      ensures ok == old(remote).record.None?
      ensures remote == if ok then Write(old(remote), Some(resources)) else old(remote)
    {
      ok := remote.record.None?;
      if ok {
        remote := Write(remote, Some(resources));
      }
    }

    method Update(resources: Resources, version: nat) returns (ok: bool)
      modifies this
      ensures ok == (old(remote).record.Some? && old(remote).record.value.version == version)
      ensures remote == if ok then Write(old(remote), Some(resources)) else old(remote)
    {
      ok := remote.record.Some? && remote.record.value.version == version;
      if ok {
        remote := Write(remote, Some(resources));
      }
    }
  }

  /** `get` is what the Get answered; the store may have moved on before the write gets there. */
  method PublishAdvertisement(broker: BrokerApi, enabled: bool, f: Figures, get: GetAnswer) returns (ok: bool)
    modifies broker
    ensures broker.remote == if enabled then Published(old(broker.remote), f, get) else old(broker.remote)
    ensures ok <==> !enabled || Lands(old(broker.remote), get)
    ensures enabled && ok ==> Shows(broker.remote, f, Captured(get)) && Found(get, Captured(get))
  {
    if !enabled {
      return true;
    }
    var resourcesSpec: Resources := map[];
    resourcesSpec := resourcesSpec["capacity" := f.capacity];
    resourcesSpec := resourcesSpec["allocatable" := f.allocatable];
    resourcesSpec := resourcesSpec["allocated" := f.allocation];
    resourcesSpec := resourcesSpec["available" := f.available];
    if get.Got? && get.record.resources.Some? {
      var existing := get.record.resources.value;
      if RESERVED_KEY in existing {
        resourcesSpec := resourcesSpec[RESERVED_KEY := existing[RESERVED_KEY]];
      }
    }
    assert resourcesSpec == Built(f, Captured(get));
    if get.GetError? {
      ok := broker.Create(resourcesSpec);
    } else {
      ok := broker.Update(resourcesSpec, get.record.version);
    }
  }

  // ---------------------------------------------------------------------------------------------
  // Any number of publishes interleaved with the broker's own writes
  // ---------------------------------------------------------------------------------------------

  /** Publishes between their Get and their write, by activation. */
  datatype World = World(remote: Remote, tasks: map<nat, (Figures, GetAnswer)>)

  datatype Action =
    | AgentGet(pid: nat, figures: Figures)
      // The Get fails, whether or not there is an advertisement.
    | AgentGetFails(pid: nat, figures: Figures)
    | AgentWrite(pid: nat)
    | AgentStops(pid: nat)
    | BrokerWrites(resources: Option<Resources>)
    | BrokerDeletes

  predicate Enabled(w: World, a: Action) {
    match a
    case AgentGet(pid, _) => pid !in w.tasks
    case AgentGetFails(pid, _) => pid !in w.tasks
    case AgentWrite(pid) => pid in w.tasks
    case AgentStops(pid) => pid in w.tasks
    case _ => true
  }

  function Next(w: World, a: Action): World
    requires Enabled(w, a)
  {
    match a
    case AgentGet(pid, f) =>
      w.(tasks := w.tasks[pid := (f, if w.remote.record.Some? then Got(w.remote.record.value) else GetError)])
    case AgentGetFails(pid, f) => w.(tasks := w.tasks[pid := (f, GetError)])
    case AgentWrite(pid) => World(Published(w.remote, w.tasks[pid].0, w.tasks[pid].1), w.tasks - {pid})
    case AgentStops(pid) => w.(tasks := w.tasks - {pid})
    case BrokerWrites(resources) => w.(remote := Write(w.remote, resources))
    case BrokerDeletes => w.(remote := w.remote.(record := None))
  }

  predicate IsRun(ws: seq<World>, acts: seq<Action>) {
    && |ws| == |acts| + 1
    && ws[0] == World(Remote(None, 0), map[])
    && forall i :: 0 <= i < |acts| ==> Enabled(ws[i], acts[i]) && ws[i + 1] == Next(ws[i], acts[i])
  }

  /** The broker's last word on `reserved`, read off its own actions alone. */
  function LastWord(acts: seq<Action>): Option<Section> {
    if acts == [] then None
    else
      match acts[|acts| - 1]
      case BrokerWrites(resources) => ReservedIn(resources)
      case BrokerDeletes => None
      case _ => LastWord(acts[..|acts| - 1])
  }

  /** An answer that is still current is the current record: versions are never reused. */
  predicate Inv(w: World) {
    && (w.remote.record.Some? ==> w.remote.record.value.version < w.remote.revision)
    && forall pid :: pid in w.tasks && w.tasks[pid].1.Got? ==>
         var read := w.tasks[pid].1.record;
         && read.version < w.remote.revision
         && (w.remote.record.Some? && w.remote.record.value.version == read.version ==> w.remote.record.value == read)
  }

  /** A publish that lands is an indivisible update of the record as it stands: four fresh figures, the
      broker's `reserved` as it is at this instant, and nothing else. */
  lemma LandedWriteIsAtomic(w: World, pid: nat)
    requires Inv(w) && pid in w.tasks && Lands(w.remote, w.tasks[pid].1)
    ensures Published(w.remote, w.tasks[pid].0, w.tasks[pid].1)
         == Write(w.remote, Some(Built(w.tasks[pid].0, ReservedOf(w.remote))))
  {
  }

  lemma StepKeepsInv(w: World, a: Action)
    requires Inv(w) && Enabled(w, a)
    ensures Inv(Next(w, a))
  {
  }

  /** No step of the agent changes `reserved`. */
  lemma AgentStepKeepsReserved(w: World, a: Action)
    requires Inv(w) && Enabled(w, a) && !a.BrokerWrites? && !a.BrokerDeletes?
    ensures ReservedOf(Next(w, a).remote) == ReservedOf(w.remote)
  {
  }

  lemma {:induction false} RunKeepsInv(ws: seq<World>, acts: seq<Action>, k: nat)
    requires IsRun(ws, acts) && k < |ws|
    ensures Inv(ws[k])
  {
    if k > 0 {
      RunKeepsInv(ws, acts, k - 1);
      StepKeepsInv(ws[k - 1], acts[k - 1]);
    }
  }

  /** In every interleaving, at every moment, `reserved` is the broker's last word on it, even when a
      Get fails on an advertisement that exists and the agent goes on to create it. */
  lemma {:induction false} ReservedIsTheBrokersLastWord(ws: seq<World>, acts: seq<Action>, k: nat)
    requires IsRun(ws, acts) && k < |ws|
    ensures ReservedOf(ws[k].remote) == LastWord(acts[..k])
  {
    if k > 0 {
      ReservedIsTheBrokersLastWord(ws, acts, k - 1);
      RunKeepsInv(ws, acts, k - 1);
      assert acts[..k][..k - 1] == acts[..k - 1];
      if !acts[k - 1].BrokerWrites? && !acts[k - 1].BrokerDeletes? {
        AgentStepKeepsReserved(ws[k - 1], acts[k - 1]);
      }
    }
  }

  // ---------------------------------------------------------------------------------------------
  // Whose figures are shown
  // ---------------------------------------------------------------------------------------------

  /** The action puts a record in place of what is there, or takes it away. */
  predicate Overwrites(w: World, a: Action)
    requires Enabled(w, a)
  {
    a.BrokerWrites? || a.BrokerDeletes? || (a.AgentWrite? && Lands(w.remote, w.tasks[a.pid].1))
  }

  predicate IsLastWrite(ws: seq<World>, acts: seq<Action>, j: nat, k: nat)
    requires IsRun(ws, acts)
  {
    j < k <= |acts| && Overwrites(ws[j], acts[j]) && forall m :: j < m < k ==> !Overwrites(ws[m], acts[m])
  }

  predicate IsOwn(a: Action, pid: nat) {
    !a.BrokerWrites? && !a.BrokerDeletes? && a.pid == pid
  }

  /** Action `g` is the Get of the publish that is in flight under `pid` after the first `k` actions. */
  predicate IsGetOf(acts: seq<Action>, pid: nat, f: Figures, g: nat, k: nat) {
    && g < k <= |acts|
    && (acts[g] == AgentGet(pid, f) || acts[g] == AgentGetFails(pid, f))
    && forall m :: g < m < k ==> !IsOwn(acts[m], pid)
  }

  lemma {:induction false} GetHistory(ws: seq<World>, acts: seq<Action>, pid: nat, k: nat) returns (g: nat)
    requires IsRun(ws, acts) && k < |ws| && pid in ws[k].tasks
    ensures IsGetOf(acts, pid, ws[k].tasks[pid].0, g, k)
  {
    if IsOwn(acts[k - 1], pid) {
      g := k - 1;
    } else {
      g := GetHistory(ws, acts, pid, k - 1);
    }
  }

  lemma {:induction false} RecordHistory(ws: seq<World>, acts: seq<Action>, k: nat) returns (j: nat)
    requires IsRun(ws, acts) && k < |ws|
    ensures ws[k].remote.record.Some? ==> IsLastWrite(ws, acts, j, k) && !acts[j].BrokerDeletes?
    ensures ws[k].remote.record.Some? ==> ws[k].remote.record == ws[j + 1].remote.record
    ensures forall m :: IsLastWrite(ws, acts, m, k) ==> ws[k].remote.record == ws[m + 1].remote.record
  {
    if k == 0 {
      j := 0;
    } else if Overwrites(ws[k - 1], acts[k - 1]) {
      j := k - 1;
    } else {
      j := RecordHistory(ws, acts, k - 1);
      assert forall m :: IsLastWrite(ws, acts, m, k) ==> IsLastWrite(ws, acts, m, k - 1);
    }
  }

  /** In every interleaving, at every moment: if the last write was a publish, the record shows that publish's
      own figures, as they were when it began, and the broker's last word on `reserved`; if it was the
      broker's, the record is what the broker wrote; and there is a record exactly if it was no deletion. */
  lemma FiguresAreTheLastPublished(ws: seq<World>, acts: seq<Action>, k: nat, j: nat) returns (g: nat)
    requires IsRun(ws, acts) && k < |ws| && IsLastWrite(ws, acts, j, k)
    ensures acts[j].BrokerDeletes? ==> ws[k].remote.record == None
    ensures acts[j].BrokerWrites? ==>
              ws[k].remote.record.Some? && ws[k].remote.record.value.resources == acts[j].resources
    ensures acts[j].AgentWrite? ==>
              && g < j && (acts[g].AgentGet? || acts[g].AgentGetFails?)
              && IsGetOf(acts, acts[j].pid, acts[g].figures, g, j)
              && Shows(ws[k].remote, acts[g].figures, LastWord(acts[..k]))
  {
    g := 0;
    var _ := RecordHistory(ws, acts, k);
    if acts[j].AgentWrite? {
      var pid := acts[j].pid;
      g := GetHistory(ws, acts, pid, j);
      RunKeepsInv(ws, acts, j);
      var f, get := ws[j].tasks[pid].0, ws[j].tasks[pid].1;
      PublishShowsFigures(ws[j].remote, f, get, Captured(get));
      ReservedIsTheBrokersLastWord(ws, acts, k);
    }
  }

  /** Without any write there is no record. */
  lemma NoRecordWithoutWrite(ws: seq<World>, acts: seq<Action>, k: nat)
    requires IsRun(ws, acts) && k < |ws| && forall j :: !IsLastWrite(ws, acts, j, k)
    ensures ws[k].remote.record == None
  {
    var _ := RecordHistory(ws, acts, k);
  }
}
