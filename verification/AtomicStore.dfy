/** The instruction store as a reader would like it to be: no versions, no activations in flight and
    no caches.  Each reconcile is one indivisible look at the current instruction.  `Interleaving`
    shows that every concurrent run is a run of this machine; this module proves what such runs do. */
module AtomicStore {
  import opened Base
  import opened Api
  import opened Instructions
  import opened Reconcilers

  /** An instruction, with the instant of the last write to it. */
  datatype Cell = Cell(spec: Spec, flag: bool, written: Time)

  datatype Atomic = Atomic(cells: map<Key, Cell>, clock: Time)

  datatype Event =
    | Idle
    | Advance(step: nat)
    | Remove(key: Key)
    | Add(key: Key, spec: Spec)
    | Replace(key: Key, spec: Spec)
    | Reset(key: Key)
    | Acknowledge(key: Key, now: Time)

  /** A reconcile is one indivisible look at the current cell, with a clock reading taken since the
      cell was last written. */
  predicate Possible(s: Atomic, e: Event) {
    match e
    case Idle => true
    case Advance(_) => true
    case Remove(_) => true
    case Add(key, spec) => key !in s.cells && key == KeyOf(key.kind, spec.reservation)
    case Replace(key, spec) => key in s.cells && key == KeyOf(key.kind, spec.reservation)
    case Reset(key) => key in s.cells
    case Acknowledge(key, now) => key in s.cells && s.cells[key].written <= now <= s.clock
  }

  function Acknowledged(kind: Kind, c: Cell, now: Time, clock: Time): Cell {
    match Decide(kind, c.spec, c.flag, now)
    case Leave => c
    case Write(flag) => Cell(c.spec, flag, clock)
  }

  function Fire(s: Atomic, e: Event): Atomic
    requires Possible(s, e)
  {
    match e
    case Idle => s
    case Advance(step) => s.(clock := s.clock + step)
    case Remove(key) => s.(cells := s.cells - {key})
    case Add(key, spec) => s.(cells := s.cells[key := Cell(spec, false, s.clock)])
    case Replace(key, spec) => s.(cells := s.cells[key := Cell(spec, s.cells[key].flag, s.clock)])
    case Reset(key) => s.(cells := s.cells[key := Cell(s.cells[key].spec, false, s.clock)])
    case Acknowledge(key, now) =>
      s.(cells := s.cells[key := Acknowledged(key.kind, s.cells[key], now, s.clock)])
  }

  predicate IsAtomicRun(ss: seq<Atomic>, es: seq<Event>) {
    && |ss| == |es| + 1
    && ss[0] == Atomic(map[], ss[0].clock)
    && forall i :: 0 <= i < |es| ==> Possible(ss[i], es[i]) && ss[i + 1] == Fire(ss[i], es[i])
  }

  // ---------------------------------------------------------------------------------------------
  // One cell, one step
  // ---------------------------------------------------------------------------------------------

  /** The events that only a watcher or a deletion causes. */
  predicate Disturbs(e: Event, key: Key) {
    (e.Remove? || e.Replace? || e.Reset?) && e.key == key
  }

  /** Acknowledged, or expired anyway. */
  predicate Settled(c: Cell, clock: Time) {
    c.flag || Expired(c.spec, clock)
  }

  /** 0: not yet acknowledged; 1: acknowledged; 2: its last write already found it expired. */
  function Stage(c: Cell): (stage: nat)
    ensures stage <= 2
  {
    if c.flag then 1 else if Expired(c.spec, c.written) then 2 else 0
  }

  /** The instructions whose reconciler never repeats a write: requesters', and any without an expiry. */
  predicate Terse(kind: Kind, spec: Spec) {
    kind.Requester? || spec.expiresAt.None?
  }

  predicate WritesFlag(s: Atomic, e: Event, key: Key)
    requires Possible(s, e)
  {
    && e.Acknowledge?
    && e.key == key
    && Decide(key.kind, s.cells[key].spec, s.cells[key].flag, e.now).Write?
  }

  /** A cell that nothing disturbs keeps its spec, never steps back through its stages, and each
      flag write takes it strictly forward, unless it is a provider's on a spec that can expire. */
  lemma UndisturbedStep(s: Atomic, e: Event, key: Key)
    requires Possible(s, e) && key in s.cells && !Disturbs(e, key)
    ensures key in Fire(s, e).cells && Fire(s, e).cells[key].spec == s.cells[key].spec
    ensures Stage(s.cells[key]) <= Stage(Fire(s, e).cells[key])
    ensures WritesFlag(s, e, key) && Terse(key.kind, s.cells[key].spec) ==>
              Stage(s.cells[key]) < Stage(Fire(s, e).cells[key])
    ensures !WritesFlag(s, e, key) ==> Fire(s, e).cells[key] == s.cells[key]
    ensures Settled(s.cells[key], s.clock) ==> Settled(Fire(s, e).cells[key], Fire(s, e).clock)
  {
  }

  lemma AcknowledgeSettles(s: Atomic, e: Event)
    requires Possible(s, e) && e.Acknowledge?
    ensures Settled(Fire(s, e).cells[e.key], Fire(s, e).clock)
  {
  }

  // ---------------------------------------------------------------------------------------------
  // Whole runs
  // ---------------------------------------------------------------------------------------------

  predicate Undisturbed(es: seq<Event>, key: Key, from: nat, to: nat)
    requires to <= |es|
  {
    forall i :: from <= i < to ==> !Disturbs(es[i], key)
  }

  /** Over any stretch in which nothing disturbs the cell, its spec stays and its stage never falls. */
  lemma {:induction false} UndisturbedRun(ss: seq<Atomic>, es: seq<Event>, key: Key, i: nat, k: nat)
    requires IsAtomicRun(ss, es) && i <= k < |ss|
    requires key in ss[i].cells && Undisturbed(es, key, i, k)
    ensures key in ss[k].cells && ss[k].cells[key].spec == ss[i].cells[key].spec
    ensures Stage(ss[i].cells[key]) <= Stage(ss[k].cells[key])
    ensures Settled(ss[i].cells[key], ss[i].clock) ==> Settled(ss[k].cells[key], ss[k].clock)
  {
    if i < k {
      UndisturbedRun(ss, es, key, i, k - 1);
      UndisturbedStep(ss[k - 1], es[k - 1], key);
    }
  }

  /** The flag's history reads false, then true, then false: once withdrawn it never comes back. */
  lemma FlagRisesOnce(ss: seq<Atomic>, es: seq<Event>, key: Key, i: nat, j: nat, k: nat)
    requires IsAtomicRun(ss, es) && i <= j <= k < |ss|
    requires key in ss[i].cells && Undisturbed(es, key, i, k)
    requires ss[i].cells[key].flag
    ensures key in ss[j].cells && key in ss[k].cells
    ensures !ss[j].cells[key].flag ==> !ss[k].cells[key].flag && Expired(ss[j].cells[key].spec, ss[j].clock)
  {
    UndisturbedRun(ss, es, key, i, j);
    UndisturbedRun(ss, es, key, j, k);
  }

  predicate Stores(e: Event, key: Key) {
    (e.Add? || e.Replace?) && e.key == key
  }

  /** Event `j` stored a spec under the key, and up to `k` none has replaced or removed it. */
  predicate IsLastStored(es: seq<Event>, key: Key, j: nat, k: nat) {
    j < k <= |es| && Stores(es[j], key) && forall m :: j < m < k ==> !Stores(es[m], key) && es[m] != Remove(key)
  }

  /** A key is taken exactly if a stored spec has not been removed since, and the last one stored is
      what it holds. */
  lemma {:induction false} SpecProvenance(ss: seq<Atomic>, es: seq<Event>, key: Key, k: nat) returns (j: nat)
    requires IsAtomicRun(ss, es) && k < |ss|
    ensures key in ss[k].cells <==> IsLastStored(es, key, j, k)
    ensures key in ss[k].cells ==> es[j].spec == ss[k].cells[key].spec
    ensures forall m :: IsLastStored(es, key, m, k) ==> m == j
  {
    if k == 0 {
      j := 0;
    } else if Stores(es[k - 1], key) {
      j := k - 1;
    } else {
      j := SpecProvenance(ss, es, key, k - 1);
      assert forall m :: IsLastStored(es, key, m, k) ==> IsLastStored(es, key, m, k - 1);
    }
  }

  /** Where a raised flag comes from: the reconcile at `i` raised it on a spec it found unexpired,
      it has stayed up since, and the spec beside it is that one unless a watcher has replaced it,
      in which case it is the last replacement. */
  lemma {:induction false} FlagProvenance(ss: seq<Atomic>, es: seq<Event>, key: Key, k: nat) returns (i: nat, j: nat)
    requires IsAtomicRun(ss, es) && k < |ss|
    requires key in ss[k].cells && ss[k].cells[key].flag
    ensures i <= j < k
    ensures es[i].Acknowledge? && es[i].key == key
    ensures key in ss[i].cells && !ss[i].cells[key].flag && !Expired(ss[i].cells[key].spec, es[i].now)
    ensures forall m :: i < m <= k ==> key in ss[m].cells && ss[m].cells[key].flag
    ensures forall m :: j < m < k ==> !(es[m].Replace? && es[m].key == key)
    ensures j == i ==> ss[k].cells[key].spec == ss[i].cells[key].spec
    ensures j > i ==> es[j] == Replace(key, ss[k].cells[key].spec)
  {
    var s, e := ss[k - 1], es[k - 1];
    if key in s.cells && s.cells[key].flag {
      i, j := FlagProvenance(ss, es, key, k - 1);
      if e.Replace? && e.key == key {
        j := k - 1;
      }
    } else {
      i, j := k - 1, k - 1;
    }
  }
}
