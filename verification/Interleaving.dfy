/** All writers of the instruction store at once: pollers, watchers and reconcilers in flight, each
    step of each of them atomic, in any order, over a clock that only moves forward.

    Every Get goes through an informer cache, so a read may answer with any version the object ever
    had, or miss an object that exists.  Every write carries the version that was read. */
module Interleaving {
  import opened Base
  import opened Api
  import opened Instructions
  import opened Reconcilers
  import opened AtomicStore

  /** One accepted write; its index in the log is the version it produced. */
  datatype Entry = Entry(key: Key, item: Instruction, at: Time)

  /** The local variables of one activation, between two of its API calls or clock readings. */
  datatype Task =
    | Creating(key: Key, spec: Spec)
    | Upserting(key: Key, spec: Spec, observed: string, seen: Option<nat>)
    | Resetting(key: Key, item: Instruction, observed: string)
    | Fetched(key: Key, item: Instruction)
    | Writing(key: Key, item: Instruction, now: Time, flag: bool)

  datatype World = World(store: Store, clock: Time, log: seq<Entry>, tasks: map<nat, Task>)

  datatype Action =
    | Tick(step: nat)
    | Delete(key: Key)
      // The poller found no instruction for a reservation.
    | PollRead(pid: nat, kind: Kind, rsv: Reservation)
      // The watcher looked up the instruction of an event's reservation.
    | WatchRead(pid: nat, kind: Kind, rsv: Reservation, observed: string, seen: Option<nat>)
      // A reconciler read `version` of its instruction.
    | Fetch(pid: nat, key: Key, version: nat)
      // A reconciler compared the expiry it read with the clock.
    | Judge(pid: nat)
      // The pending API write reaches the server.
    | Commit(pid: nat, stamp: Time)
      // The activation ends early: crash, lost answer or failed call.
    | Drop(pid: nat)

  /** The API write a task is about to make. */
  function Call(st: Store, task: Task, stamp: Time): Reply
    requires !task.Fetched?
  {
    match task
    case Creating(key, spec) => Created(st, key, spec)
    case Upserting(key, spec, _, seen) =>
      if seen.None? then Created(st, key, spec) else SpecUpdated(st, key, seen.value, spec)
    case Resetting(key, item, observed) =>
      StatusUpdated(st, key, item.version, Cleared(key.kind, item.status, observed, stamp))
    case Writing(key, item, _, flag) => FlagWrite(st, key, item, flag, stamp)
  }

  predicate IsVersionOf(log: seq<Entry>, v: nat, key: Key) {
    v < |log| && log[v].key == key
  }

  predicate Enabled(w: World, a: Action) {
    match a
    case Tick(_) => true
    case Delete(_) => true
    case PollRead(pid, _, _) => pid !in w.tasks
    case WatchRead(pid, kind, rsv, _, seen) =>
      pid !in w.tasks && (seen.Some? ==> IsVersionOf(w.log, seen.value, KeyOf(kind, rsv.id)))
    case Fetch(pid, key, version) => pid !in w.tasks && IsVersionOf(w.log, version, key)
    case Judge(pid) => pid in w.tasks && w.tasks[pid].Fetched?
    case Commit(pid, stamp) =>
      && pid in w.tasks
      && !w.tasks[pid].Fetched?
      && stamp <= w.clock
      && (w.tasks[pid].Writing? ==> w.tasks[pid].now <= stamp)
    case Drop(pid) => pid in w.tasks
  }

  function Judged(w: World, pid: nat, task: Task): World
    requires task.Fetched?
  {
    match Decide(task.key.kind, task.item.spec, task.item.status.flag, w.clock)
    case Leave => w.(tasks := w.tasks - {pid})
    case Write(flag) => w.(tasks := w.tasks[pid := Writing(task.key, task.item, w.clock, flag)])
  }

  function Committed(w: World, pid: nat, task: Task, stamp: Time): World
    requires !task.Fetched?
  {
    var reply := Call(w.store, task, stamp);
    match reply
    case Refused(_) => w.(tasks := w.tasks - {pid})
    case Accepted(store, item) =>
      World(
        store,
        w.clock,
        w.log + [Entry(task.key, item, w.clock)],
        if task.Upserting? then w.tasks[pid := Resetting(task.key, item, task.observed)] else w.tasks - {pid})
  }

  function Next(w: World, a: Action): World
    requires Enabled(w, a)
  {
    match a
    case Tick(step) => w.(clock := w.clock + step)
    case Delete(key) => w.(store := w.store.(objects := w.store.objects - {key}))
    case PollRead(pid, kind, rsv) =>
      w.(tasks := w.tasks[pid := Creating(KeyOf(kind, rsv.id), SpecOf(kind, rsv))])
    case WatchRead(pid, kind, rsv, observed, seen) =>
      w.(tasks := w.tasks[pid := Upserting(KeyOf(kind, rsv.id), SpecOf(kind, rsv), observed, seen)])
    case Fetch(pid, key, version) => w.(tasks := w.tasks[pid := Fetched(key, w.log[version].item)])
    case Judge(pid) => Judged(w, pid, w.tasks[pid])
    case Commit(pid, stamp) => Committed(w, pid, w.tasks[pid], stamp)
    case Drop(pid) => w.(tasks := w.tasks - {pid})
  }

  function Init(start: Time): World {
    World(Store(map[], 0), start, [], map[])
  }

  /** A run: the worlds visited and the action taken from each but the last. */
  predicate IsRun(ws: seq<World>, acts: seq<Action>) {
    && |ws| == |acts| + 1
    && ws[0] == Init(ws[0].clock)
    && forall i :: 0 <= i < |acts| ==> Enabled(ws[i], acts[i]) && ws[i + 1] == Next(ws[i], acts[i])
  }

  // ---------------------------------------------------------------------------------------------
  // What every step keeps
  // ---------------------------------------------------------------------------------------------

  predicate Recorded(log: seq<Entry>, key: Key, item: Instruction) {
    IsVersionOf(log, item.version, key) && log[item.version].item == item
  }

  predicate GoodEntry(e: Entry, v: nat, clock: Time) {
    && e.item.version == v
    && e.at <= clock
    && e.key == KeyOf(e.key.kind, e.item.spec.reservation)
  }

  predicate GoodLog(w: World) {
    && w.store.revision == |w.log|
    && (forall v :: 0 <= v < |w.log| ==> GoodEntry(w.log[v], v, w.clock))
    && (forall key :: key in w.store.objects ==> Recorded(w.log, key, w.store.objects[key]))
  }

  predicate GoodTask(w: World, task: Task) {
    match task
    case Creating(key, spec) => key == KeyOf(key.kind, spec.reservation)
    case Upserting(key, spec, _, _) => key == KeyOf(key.kind, spec.reservation)
    case Resetting(key, item, _) => Recorded(w.log, key, item)
    case Fetched(key, item) => Recorded(w.log, key, item)
    case Writing(key, item, now, flag) =>
      && Recorded(w.log, key, item)
      && w.log[item.version].at <= now <= w.clock
      && Decide(key.kind, item.spec, item.status.flag, now) == Write(flag)
  }

  predicate Inv(w: World) {
    GoodLog(w) && forall pid :: pid in w.tasks ==> GoodTask(w, w.tasks[pid])
  }

  // ---------------------------------------------------------------------------------------------
  // Every interleaving is an atomic run
  // ---------------------------------------------------------------------------------------------

  function CellOf(log: seq<Entry>, item: Instruction): Cell {
    Cell(item.spec, item.status.flag, if item.version < |log| then log[item.version].at else 0)
  }

  function Abstract(w: World): Atomic {
    Atomic(map key | key in w.store.objects :: CellOf(w.log, w.store.objects[key]), w.clock)
  }

  /** The event at which an action takes effect; a refused or early step is Idle. */
  function Effect(w: World, a: Action): Event
    requires Enabled(w, a)
  {
    match a
    case Tick(step) => Advance(step)
    case Delete(key) => Remove(key)
    case Judge(pid) =>
      var task := w.tasks[pid];
      if && Decide(task.key.kind, task.item.spec, task.item.status.flag, w.clock).Leave?
         && task.key in w.store.objects
         && w.store.objects[task.key] == task.item
      then Acknowledge(task.key, w.clock) else Idle
    case Commit(pid, stamp) =>
      var task := w.tasks[pid];
      if Call(w.store, task, stamp).Refused? then Idle
      else CommitEvent(task)
    case _ => Idle
  }

  function CommitEvent(task: Task): Event
    requires !task.Fetched?
  {
    match task
    case Creating(key, spec) => Add(key, spec)
    case Upserting(key, spec, _, seen) => if seen.None? then Add(key, spec) else Replace(key, spec)
    case Resetting(key, _, _) => Reset(key)
    case Writing(key, _, now, _) => Acknowledge(key, now)
  }

  /** An accepted versioned write meets exactly the instruction that was read. */
  lemma AcceptedMeansFresh(w: World, task: Task, stamp: Time)
    requires Inv(w) && GoodTask(w, task)
    requires task.Resetting? || task.Writing?
    requires Call(w.store, task, stamp).Accepted?
    ensures task.key in w.store.objects && w.store.objects[task.key] == task.item
  {
  }

  lemma CommitKeepsLog(w: World, pid: nat, task: Task, stamp: Time)
    requires Inv(w) && GoodTask(w, task) && !task.Fetched?
    ensures GoodLog(Committed(w, pid, task, stamp))
  {
  }

  lemma CommitKeepsTasks(w: World, pid: nat, task: Task, stamp: Time)
    requires Inv(w) && GoodTask(w, task) && !task.Fetched?
    ensures var w' := Committed(w, pid, task, stamp); forall p :: p in w'.tasks ==> GoodTask(w', w'.tasks[p])
  {
    var w' := Committed(w, pid, task, stamp);
    forall p | p in w'.tasks ensures GoodTask(w', w'.tasks[p]) {
      if p == pid {
        if task.Upserting? {
          assert Recorded(w'.log, task.key, w'.tasks[p].item);
        }
      } else {
        assert GoodTask(w, w.tasks[p]);
      }
    }
  }

  lemma JudgeKeepsInv(w: World, pid: nat)
    requires Inv(w) && Enabled(w, Judge(pid))
    ensures Inv(Next(w, Judge(pid)))
  {
    var task := w.tasks[pid];
    assert GoodEntry(w.log[task.item.version], task.item.version, w.clock);
  }

  lemma StepKeepsInv(w: World, a: Action)
    requires Inv(w) && Enabled(w, a)
    ensures Inv(Next(w, a))
  {
    if a.Commit? {
      CommitKeepsLog(w, a.pid, w.tasks[a.pid], a.stamp);
      CommitKeepsTasks(w, a.pid, w.tasks[a.pid], a.stamp);
    } else if a.Judge? {
      JudgeKeepsInv(w, a.pid);
    }
  }

  lemma PutIsAtomic(w: World, key: Key, spec: Spec, status: Status, tasks: map<nat, Task>)
    requires GoodLog(w)
    ensures
      var reply := Put(w.store, key, spec, status);
      Abstract(World(reply.store, w.clock, w.log + [Entry(key, reply.item, w.clock)], tasks))
      == Atomic(Abstract(w).cells[key := Cell(spec, status.flag, w.clock)], w.clock)
  {
  }

  lemma CommitIsAtomic(w: World, pid: nat, task: Task, stamp: Time)
    requires Inv(w) && GoodTask(w, task) && !task.Fetched?
    requires Call(w.store, task, stamp).Accepted?
    ensures Possible(Abstract(w), CommitEvent(task))
    ensures Abstract(Committed(w, pid, task, stamp)) == Fire(Abstract(w), CommitEvent(task))
  {
    var w' := Committed(w, pid, task, stamp);
    var item := w'.log[|w.log|].item;
    PutIsAtomic(w, task.key, item.spec, item.status, w'.tasks);
    if task.Resetting? || task.Writing? {
      AcceptedMeansFresh(w, task, stamp);
    }
  }

  lemma StepIsAtomic(w: World, a: Action)
    requires Inv(w) && Enabled(w, a)
    ensures Possible(Abstract(w), Effect(w, a))
    ensures Abstract(Next(w, a)) == Fire(Abstract(w), Effect(w, a))
  {
    if a.Commit? {
      var task := w.tasks[a.pid];
      if Call(w.store, task, a.stamp).Accepted? {
        CommitIsAtomic(w, a.pid, task, a.stamp);
      }
    } else if a.Judge? {
      var task := w.tasks[a.pid];
      if task.key in w.store.objects && w.store.objects[task.key] == task.item {
        assert GoodEntry(w.log[task.item.version], task.item.version, w.clock);
      }
    }
  }

  // ---------------------------------------------------------------------------------------------
  // Where a task comes from
  // ---------------------------------------------------------------------------------------------

  /** A step leaves an activation as it was, starts it, or moves it on to its next stage. */
  lemma TaskStep(w: World, a: Action, pid: nat)
    requires Enabled(w, a) && pid in Next(w, a).tasks
    ensures
      var task := Next(w, a).tasks[pid];
      || (pid in w.tasks && w.tasks[pid] == task)
      || (task.Creating? && a.PollRead? && a.pid == pid
          && task.key == KeyOf(a.kind, a.rsv.id) && task.spec == SpecOf(a.kind, a.rsv))
      || (task.Upserting? && a.WatchRead? && a.pid == pid
          && task.key == KeyOf(a.kind, a.rsv.id) && task.spec == SpecOf(a.kind, a.rsv))
      || (task.Resetting? && a.Commit? && a.pid == pid)
      || (task.Fetched? && a.Fetch? && a.pid == pid && task.key == a.key && task.item == w.log[a.version].item)
      || (task.Writing? && a == Judge(pid) && pid in w.tasks && w.tasks[pid] == Fetched(task.key, task.item)
          && task.now == w.clock)
  {
  }
}
