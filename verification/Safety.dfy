/** What holds in every concurrent run of pollers, watchers, reconcilers, deletions and clock ticks. */
module Safety {
  import opened Base
  import opened Api
  import opened Instructions
  import opened Reconcilers
  import opened AtomicStore
  import opened Interleaving

  // ---------------------------------------------------------------------------------------------
  // Every run keeps the invariant and is a run of the atomic machine
  // ---------------------------------------------------------------------------------------------

  lemma {:induction false} RunKeepsInv(ws: seq<World>, acts: seq<Action>, k: nat)
    requires IsRun(ws, acts) && k < |ws|
    ensures Inv(ws[k])
  {
    if k > 0 {
      RunKeepsInv(ws, acts, k - 1);
      StepKeepsInv(ws[k - 1], acts[k - 1]);
    }
  }

  function Views(ws: seq<World>): seq<Atomic> {
    seq(|ws|, i requires 0 <= i < |ws| => Abstract(ws[i]))
  }

  function Effects(ws: seq<World>, acts: seq<Action>): seq<Event>
    requires IsRun(ws, acts)
  {
    seq(|acts|, i requires 0 <= i < |acts| => Effect(ws[i], acts[i]))
  }

  /** Stale reads, in-flight activations and lost answers notwithstanding, the stored instructions
      evolve as if every reconcile and every write were one indivisible step. */
  lemma RunIsAtomic(ws: seq<World>, acts: seq<Action>)
    requires IsRun(ws, acts)
    ensures IsAtomicRun(Views(ws), Effects(ws, acts))
  {
    forall i | 0 <= i < |acts|
      ensures Possible(Views(ws)[i], Effects(ws, acts)[i])
      ensures Views(ws)[i + 1] == Fire(Views(ws)[i], Effects(ws, acts)[i])
    {
      RunKeepsInv(ws, acts, i);
      StepIsAtomic(ws[i], acts[i]);
    }
  }

  // ---------------------------------------------------------------------------------------------
  // A flag is raised only on what was read and found unexpired
  // ---------------------------------------------------------------------------------------------

  predicate Has(w: World, key: Key) {
    key in w.store.objects
  }

  predicate Flagged(w: World, key: Key) {
    Has(w, key) && w.store.objects[key].status.flag
  }

  /** A pending flag write goes back to one Fetch and, later, one clock reading of the same activation. */
  lemma {:induction false} WritingHistory(ws: seq<World>, acts: seq<Action>, pid: nat, k: nat) returns (f: nat, g: nat)
    requires IsRun(ws, acts) && k < |ws|
    requires pid in ws[k].tasks && ws[k].tasks[pid].Writing?
    ensures f < g < k
    ensures acts[f] == Fetch(pid, ws[k].tasks[pid].key, ws[k].tasks[pid].item.version)
    ensures Recorded(ws[f].log, ws[k].tasks[pid].key, ws[k].tasks[pid].item)
    ensures acts[g] == Judge(pid) && ws[g].clock == ws[k].tasks[pid].now
  {
    TaskStep(ws[k - 1], acts[k - 1], pid);
    if pid in ws[k - 1].tasks && ws[k - 1].tasks[pid] == ws[k].tasks[pid] {
      f, g := WritingHistory(ws, acts, pid, k - 1);
    } else {
      g := k - 1;
      f := FetchHistory(ws, acts, pid, k - 1);
    }
  }

  lemma {:induction false} FetchHistory(ws: seq<World>, acts: seq<Action>, pid: nat, k: nat) returns (f: nat)
    requires IsRun(ws, acts) && k < |ws|
    requires pid in ws[k].tasks && ws[k].tasks[pid].Fetched?
    ensures f < k
    ensures acts[f] == Fetch(pid, ws[k].tasks[pid].key, ws[k].tasks[pid].item.version)
    ensures Recorded(ws[f].log, ws[k].tasks[pid].key, ws[k].tasks[pid].item)
  {
    TaskStep(ws[k - 1], acts[k - 1], pid);
    if pid in ws[k - 1].tasks && ws[k - 1].tasks[pid] == ws[k].tasks[pid] {
      f := FetchHistory(ws, acts, pid, k - 1);
    } else {
      f := k - 1;
      RunKeepsInv(ws, acts, f);
      assert GoodEntry(ws[f].log[acts[f].version], acts[f].version, ws[f].clock);
    }
  }

  /** A step that leaves an instruction at a version from before the step has not touched it. */
  lemma OldVersionMeansUntouched(w: World, a: Action, key: Key)
    requires Inv(w) && Enabled(w, a) && Has(Next(w, a), key)
    requires Next(w, a).store.objects[key].version < |w.log|
    ensures Has(w, key) && w.store.objects[key] == Next(w, a).store.objects[key]
  {
  }

  /** An instruction that is current now and was already on record then has not changed in between. */
  lemma {:induction false} UnchangedSince(ws: seq<World>, acts: seq<Action>, key: Key, f: nat, k: nat)
    requires IsRun(ws, acts) && f <= k < |ws|
    requires Has(ws[k], key) && Recorded(ws[f].log, key, ws[k].store.objects[key])
    ensures forall m :: f <= m <= k ==> Has(ws[m], key) && ws[m].store.objects[key] == ws[k].store.objects[key]
  {
    if f < k {
      LogGrows(ws, acts, f, k - 1);
      RunKeepsInv(ws, acts, k - 1);
      OldVersionMeansUntouched(ws[k - 1], acts[k - 1], key);
      UnchangedSince(ws, acts, key, f, k - 1);
    }
  }

  lemma {:induction false} LogGrows(ws: seq<World>, acts: seq<Action>, f: nat, k: nat)
    requires IsRun(ws, acts) && f <= k < |ws|
    ensures ws[f].log <= ws[k].log
  {
    if f < k {
      LogGrows(ws, acts, f, k - 1);
    }
  }

  /** The runs leave nothing out: an unused activation can start at any moment with whatever the store held
      under the key at any earlier one, or as if it held nothing. */
  lemma ReadsMayLag(ws: seq<World>, acts: seq<Action>, m: nat, key: Key, pid: nat, rsv: Reservation, observed: string)
    requires IsRun(ws, acts) && m < |ws| && Has(ws[m], key) && pid !in ws[|acts|].tasks
    requires key == KeyOf(key.kind, rsv.id)
    ensures
      var w, item := ws[|acts|], ws[m].store.objects[key];
      && Enabled(w, Fetch(pid, key, item.version))
      && Next(w, Fetch(pid, key, item.version)).tasks == w.tasks[pid := Fetched(key, item)]
      && Enabled(w, WatchRead(pid, key.kind, rsv, observed, Some(item.version)))
      && Enabled(w, WatchRead(pid, key.kind, rsv, observed, None))
      && Enabled(w, PollRead(pid, key.kind, rsv))
  {
    RunKeepsInv(ws, acts, m);
    LogGrows(ws, acts, m, |acts|);
    assert Recorded(ws[m].log, key, ws[m].store.objects[key]);
  }

  /** Every rise of a flag is the accepted write of a reconcile that, at step `f`, read exactly the
      instruction now stored and, at step `g`, found its spec unexpired; nobody wrote the instruction
      from that read to this write. */
  lemma FlagRisesOnWhatWasRead(ws: seq<World>, acts: seq<Action>, key: Key, k: nat) returns (pid: nat, f: nat, g: nat)
    requires IsRun(ws, acts) && k < |acts|
    requires !Flagged(ws[k], key) && Flagged(ws[k + 1], key)
    ensures f < g < k && acts[k].Commit? && acts[k].pid == pid
    ensures Has(ws[k], key) && acts[f] == Fetch(pid, key, ws[k].store.objects[key].version)
    ensures forall m :: f <= m <= k ==> Has(ws[m], key) && ws[m].store.objects[key] == ws[k].store.objects[key]
    ensures acts[g] == Judge(pid) && !Expired(ws[k].store.objects[key].spec, ws[g].clock)
    ensures ws[k + 1].store.objects[key].spec == ws[k].store.objects[key].spec
  {
    RunKeepsInv(ws, acts, k);
    pid := acts[k].pid;
    f, g := WritingHistory(ws, acts, pid, k);
    AcceptedMeansFresh(ws[k], ws[k].tasks[pid], acts[k].stamp);
    UnchangedSince(ws, acts, key, f, k);
  }

  /** The spec beside a raised flag is the one its reconcile checked, unless a watcher has rewritten
      the spec since, and then it is the last rewrite: it is the checked one if and only if there was no
      rewrite or the last one brought the same spec. */
  lemma FlaggedSpecOrigin(ws: seq<World>, acts: seq<Action>, key: Key, k: nat) returns (i: nat, j: nat)
    requires IsRun(ws, acts) && k < |ws| && Flagged(ws[k], key)
    ensures i <= j < k && Flagged(ws[i + 1], key) && !Flagged(ws[i], key)
    ensures forall m :: i < m <= k ==> Flagged(ws[m], key)
    ensures Effect(ws[i], acts[i]).Acknowledge?
    ensures Has(ws[i], key) && !Expired(ws[i].store.objects[key].spec, Effect(ws[i], acts[i]).now)
    ensures j == i ==> ws[k].store.objects[key].spec == ws[i].store.objects[key].spec
    ensures j > i ==> Effect(ws[j], acts[j]) == Replace(key, ws[k].store.objects[key].spec)
    ensures ws[k].store.objects[key].spec == ws[i].store.objects[key].spec
       <==> j == i || Effect(ws[j], acts[j]) == Replace(key, ws[i].store.objects[key].spec)
    ensures forall m :: j < m < k ==> !(Effect(ws[m], acts[m]).Replace? && Effect(ws[m], acts[m]).key == key)
  {
    RunIsAtomic(ws, acts);
    var ss, es := Views(ws), Effects(ws, acts);
    i, j := FlagProvenance(ss, es, key, k);
    forall m | 0 <= m < |ws|
      ensures key in ss[m].cells <==> Has(ws[m], key)
      ensures Has(ws[m], key) ==> ss[m].cells[key].flag == Flagged(ws[m], key)
    {
      assert ss[m] == Abstract(ws[m]);
    }
    assert Flagged(ws[i + 1], key);
  }

  // ---------------------------------------------------------------------------------------------
  // Instructions that no watcher and no deletion touches
  // ---------------------------------------------------------------------------------------------

  predicate LeavesAlone(a: Action, key: Key) {
    && !(a.Delete? && a.key == key)
    && !(a.WatchRead? && KeyOf(a.kind, a.rsv.id) == key)
  }

  /** Polls, reconciles and ticks in any number and order; watchers only of other reservations. */
  predicate PolledOnly(acts: seq<Action>, key: Key) {
    forall i :: 0 <= i < |acts| ==> LeavesAlone(acts[i], key)
  }

  lemma {:induction false} NoWatcherTask(ws: seq<World>, acts: seq<Action>, key: Key, k: nat)
    requires IsRun(ws, acts) && k < |ws| && PolledOnly(acts, key)
    ensures forall pid :: pid in ws[k].tasks && ws[k].tasks[pid].key == key ==>
              !ws[k].tasks[pid].Upserting? && !ws[k].tasks[pid].Resetting?
  {
    if k > 0 {
      NoWatcherTask(ws, acts, key, k - 1);
      assert LeavesAlone(acts[k - 1], key);
    }
  }

  lemma PolledMeansUndisturbed(ws: seq<World>, acts: seq<Action>, key: Key)
    requires IsRun(ws, acts) && PolledOnly(acts, key)
    ensures Undisturbed(Effects(ws, acts), key, 0, |acts|)
  {
    forall i | 0 <= i < |acts| ensures !Disturbs(Effects(ws, acts)[i], key) {
      NoWatcherTask(ws, acts, key, i);
      assert LeavesAlone(acts[i], key);
    }
  }

  /** Create-once: the spec a poll stored is there for ever, whatever later polls bring and however
      stale their lookups are; and the flag goes up at most once and, withdrawn, stays down. */
  lemma PolledInstructionLife(ws: seq<World>, acts: seq<Action>, key: Key, i: nat, j: nat, k: nat)
    requires IsRun(ws, acts) && PolledOnly(acts, key)
    requires i <= j <= k < |ws| && Has(ws[i], key)
    ensures Has(ws[j], key) && Has(ws[k], key)
    ensures ws[k].store.objects[key].spec == ws[i].store.objects[key].spec
    ensures Flagged(ws[i], key) && !Flagged(ws[j], key) ==>
              !Flagged(ws[k], key) && Expired(ws[j].store.objects[key].spec, ws[j].clock)
  {
    RunIsAtomic(ws, acts);
    PolledMeansUndisturbed(ws, acts, key);
    var ss, es := Views(ws), Effects(ws, acts);
    UndisturbedRun(ss, es, key, i, j);
    UndisturbedRun(ss, es, key, i, k);
    if Flagged(ws[i], key) {
      FlagRisesOnce(ss, es, key, i, j, k);
    }
  }

  // ---------------------------------------------------------------------------------------------
  // How often a reconciler writes one instruction
  // ---------------------------------------------------------------------------------------------

  /** A reconciler's status write on `key` that the server accepts. */
  predicate IsFlagWrite(w: World, a: Action, key: Key)
    requires Enabled(w, a)
  {
    && a.Commit?
    && w.tasks[a.pid].Writing?
    && w.tasks[a.pid].key == key
    && Call(w.store, w.tasks[a.pid], a.stamp).Accepted?
  }

  function FlagWrites(ws: seq<World>, acts: seq<Action>, key: Key, k: nat): nat
    requires IsRun(ws, acts) && k < |ws|
  {
    if k == 0 then 0
    else FlagWrites(ws, acts, key, k - 1) + if IsFlagWrite(ws[k - 1], acts[k - 1], key) then 1 else 0
  }

  function StageOf(w: World, key: Key): nat {
    if Has(w, key) then Stage(CellOf(w.log, w.store.objects[key])) else 0
  }

  lemma FlagWriteIsAtomic(w: World, a: Action, key: Key)
    requires Inv(w) && Enabled(w, a)
    ensures Possible(Abstract(w), Effect(w, a))
    ensures IsFlagWrite(w, a, key) ==> WritesFlag(Abstract(w), Effect(w, a), key)
  {
  }

  /** The instruction, if there is one, is of the kind whose writes are bounded. */
  predicate TerseAt(w: World, key: Key) {
    Has(w, key) ==> Terse(key.kind, w.store.objects[key].spec)
  }

  lemma StageStep(ws: seq<World>, acts: seq<Action>, key: Key, k: nat)
    requires IsRun(ws, acts) && PolledOnly(acts, key) && k < |acts|
    ensures IsFlagWrite(ws[k], acts[k], key) ==> Has(ws[k], key)
    ensures Has(ws[k], key) ==>
              && Has(ws[k + 1], key) && ws[k + 1].store.objects[key].spec == ws[k].store.objects[key].spec
              && StageOf(ws[k], key) <= StageOf(ws[k + 1], key)
              && (IsFlagWrite(ws[k], acts[k], key) && TerseAt(ws[k], key) ==>
                    StageOf(ws[k], key) < StageOf(ws[k + 1], key))
  {
    RunIsAtomic(ws, acts);
    PolledMeansUndisturbed(ws, acts, key);
    RunKeepsInv(ws, acts, k);
    FlagWriteIsAtomic(ws[k], acts[k], key);
    var s, e := Views(ws)[k], Effects(ws, acts)[k];
    assert Views(ws)[k + 1] == Fire(s, e) && !Disturbs(e, key);
    if Has(ws[k], key) {
      UndisturbedStep(s, e, key);
    }
  }

  lemma {:induction false} WritesBoundedByStage(ws: seq<World>, acts: seq<Action>, key: Key, k: nat)
    requires IsRun(ws, acts) && PolledOnly(acts, key) && k < |ws| && TerseAt(ws[k], key)
    ensures FlagWrites(ws, acts, key, k) <= StageOf(ws[k], key)
  {
    if k > 0 {
      StageStep(ws, acts, key, k - 1);
      WritesBoundedByStage(ws, acts, key, k - 1);
    }
  }

  function MostWrites(spec: Spec): nat {
    if spec.expiresAt.None? then 1 else 2
  }

  /** Acknowledge, then expire: two accepted writes at most, one if it cannot expire; after the last of
      them the instruction is final. */
  lemma {:induction false} AtMostTwoWrites(ws: seq<World>, acts: seq<Action>, key: Key, k: nat, m: nat)
    requires IsRun(ws, acts) && PolledOnly(acts, key)
    requires k <= m < |ws| && TerseAt(ws[m], key)
    ensures !Has(ws[m], key) ==> FlagWrites(ws, acts, key, k) == 0
    ensures Has(ws[m], key) ==>
              var most := MostWrites(ws[m].store.objects[key].spec);
              && FlagWrites(ws, acts, key, k) <= most
              && (FlagWrites(ws, acts, key, k) == most ==>
                    Has(ws[k], key) && ws[m].store.objects[key] == ws[k].store.objects[key])
  {
    if k == m {
      WritesBoundedByStage(ws, acts, key, k);
    } else {
      if Has(ws[m - 1], key) {
        PolledInstructionLife(ws, acts, key, m - 1, m, m);
      }
      AtMostTwoWrites(ws, acts, key, k, m - 1);
      WritesMonotone(ws, acts, key, k, m - 1);
      WritesMonotone(ws, acts, key, k, m);
      WritesBoundedByStage(ws, acts, key, m);
      NoWatcherTask(ws, acts, key, m - 1);
      if Has(ws[m], key) && FlagWrites(ws, acts, key, k) == MostWrites(ws[m].store.objects[key].spec) {
        assert LeavesAlone(acts[m - 1], key);
        OnlyFlagWrites(ws[m - 1], acts[m - 1], key);
      }
    }
  }

  /** Whatever the kind: once a write has found an instruction expired, its spec and its lowered flag stay. */
  lemma WithdrawnForGood(ws: seq<World>, acts: seq<Action>, key: Key, i: nat, k: nat)
    requires IsRun(ws, acts) && PolledOnly(acts, key) && i <= k < |ws|
    requires StageOf(ws[i], key) == 2
    ensures Has(ws[k], key) && !Flagged(ws[k], key) && StageOf(ws[k], key) == 2
    ensures ws[k].store.objects[key].spec == ws[i].store.objects[key].spec
  {
    RunIsAtomic(ws, acts);
    PolledMeansUndisturbed(ws, acts, key);
    UndisturbedRun(Views(ws), Effects(ws, acts), key, i, k);
  }

  /** Polls cannot touch an instruction that is there, so only a reconciler's write changes it. */
  lemma OnlyFlagWrites(w: World, a: Action, key: Key)
    requires Enabled(w, a) && Has(w, key) && LeavesAlone(a, key) && !IsFlagWrite(w, a, key)
    requires forall pid :: pid in w.tasks && w.tasks[pid].key == key ==>
               !w.tasks[pid].Upserting? && !w.tasks[pid].Resetting?
    ensures Has(Next(w, a), key) && Next(w, a).store.objects[key] == w.store.objects[key]
  {
  }

  lemma {:induction false} WritesMonotone(ws: seq<World>, acts: seq<Action>, key: Key, k: nat, m: nat)
    requires IsRun(ws, acts) && k <= m < |ws|
    ensures FlagWrites(ws, acts, key, k) <= FlagWrites(ws, acts, key, m)
  {
    if k < m {
      WritesMonotone(ws, acts, key, k, m - 1);
    }
  }

  // ---------------------------------------------------------------------------------------------
  // One instruction per reservation
  // ---------------------------------------------------------------------------------------------

  /** In every run, with pollers and watchers together, an instruction sits under the key of the
      reservation it names, so no reservation is ever held by two instructions of one kind. */
  lemma OneInstructionPerReservation(ws: seq<World>, acts: seq<Action>, k: nat, a: Key, b: Key)
    requires IsRun(ws, acts) && k < |ws|
    requires Has(ws[k], a) && Has(ws[k], b) && a.kind == b.kind
    ensures a == KeyOf(a.kind, ws[k].store.objects[a].spec.reservation)
    ensures a == b <==> ws[k].store.objects[a].spec.reservation == ws[k].store.objects[b].spec.reservation
  {
    RunKeepsInv(ws, acts, k);
    var log := ws[k].log;
    var va, vb := ws[k].store.objects[a].version, ws[k].store.objects[b].version;
    assert Recorded(log, a, ws[k].store.objects[a]) && Recorded(log, b, ws[k].store.objects[b]);
    assert GoodEntry(log[va], va, ws[k].clock) && GoodEntry(log[vb], vb, ws[k].clock);
  }

  predicate Ingests(a: Action, key: Key, spec: Spec) {
    (a.PollRead? || a.WatchRead?) && key == KeyOf(a.kind, a.rsv.id) && spec == SpecOf(a.kind, a.rsv)
  }

  /** The activation has been pending, with the same local variables, since action `i`. */
  predicate PendingSince(ws: seq<World>, pid: nat, i: nat, k: nat)
    requires k < |ws|
  {
    forall m :: i < m <= k ==> pid in ws[m].tasks && pid in ws[k].tasks && ws[m].tasks[pid] == ws[k].tasks[pid]
  }

  lemma {:induction false} IngestionHistory(ws: seq<World>, acts: seq<Action>, pid: nat, k: nat) returns (i: nat)
    requires IsRun(ws, acts) && k < |ws|
    requires pid in ws[k].tasks && (ws[k].tasks[pid].Creating? || ws[k].tasks[pid].Upserting?)
    ensures i < k && Ingests(acts[i], ws[k].tasks[pid].key, ws[k].tasks[pid].spec)
    ensures acts[i].pid == pid && PendingSince(ws, pid, i, k)
  {
    TaskStep(ws[k - 1], acts[k - 1], pid);
    if pid in ws[k - 1].tasks && ws[k - 1].tasks[pid] == ws[k].tasks[pid] {
      i := IngestionHistory(ws, acts, pid, k - 1);
    } else {
      i := k - 1;
    }
  }

  /** Action `j` landed a spec under the key, and none has replaced or deleted it before `k`. */
  predicate IsLastLanded(ws: seq<World>, acts: seq<Action>, key: Key, j: nat, k: nat)
    requires IsRun(ws, acts)
  {
    IsLastStored(Effects(ws, acts), key, j, k)
  }

  /** Whatever pollers, watchers, reconcilers and deletions do in between: an instruction is there exactly
      if some ingestion has landed and has not been deleted since, and its spec is that of the last one
      that landed, which is a reservation the same activation was handed before. */
  lemma LastLandedIsStored(ws: seq<World>, acts: seq<Action>, key: Key, k: nat) returns (i: nat, j: nat)
    requires IsRun(ws, acts) && k < |ws|
    ensures Has(ws[k], key) <==> IsLastLanded(ws, acts, key, j, k)
    ensures forall m :: IsLastLanded(ws, acts, key, m, k) ==> m == j
    ensures Has(ws[k], key) ==>
              && Effect(ws[j], acts[j]).spec == ws[k].store.objects[key].spec
              && i < j && Ingests(acts[i], key, ws[k].store.objects[key].spec)
              && acts[j].Commit? && acts[j].pid == acts[i].pid && PendingSince(ws, acts[i].pid, i, j)
  {
    RunIsAtomic(ws, acts);
    j := SpecProvenance(Views(ws), Effects(ws, acts), key, k);
    assert Views(ws)[k] == Abstract(ws[k]);
    i := 0;
    if Has(ws[k], key) {
      assert Stores(Effect(ws[j], acts[j]), key);
      i := IngestionHistory(ws, acts, acts[j].pid, j);
    }
  }

  /** Nothing is made up: every stored spec is that of a reservation some ingestor was handed earlier. */
  lemma StoredSpecWasIngested(ws: seq<World>, acts: seq<Action>, key: Key, k: nat) returns (i: nat)
    requires IsRun(ws, acts) && k < |ws| && Has(ws[k], key)
    ensures i < k && Ingests(acts[i], key, ws[k].store.objects[key].spec)
  {
    var landed;
    i, landed := LastLandedIsStored(ws, acts, key, k);
  }

  /** What the watcher saw when it looked is what the store holds. */
  predicate SawCurrent(w: World, key: Key, seen: Option<nat>) {
    match seen
    case None => !Has(w, key)
    case Some(v) => Has(w, key) && w.store.objects[key].version == v
  }

  /** The watcher's event looked up at `i` and written at `j` decides the spec up to `k`, whoever else wrote
      the instruction before, in between or since, if its lookup was still current at `j` and no later
      ingestion landed; if its lookup was not, it stored nothing. */
  lemma LastEventDecides(ws: seq<World>, acts: seq<Action>, i: nat, j: nat, k: nat)
    requires IsRun(ws, acts) && i < j < k < |ws| && acts[i].WatchRead?
    requires acts[j].Commit? && acts[j].pid == acts[i].pid && PendingSince(ws, acts[i].pid, i, j)
    ensures
      var key := KeyOf(acts[i].kind, acts[i].rsv.id);
      && (Stores(Effect(ws[j], acts[j]), key) <==> SawCurrent(ws[j], key, acts[i].seen))
      && (!SawCurrent(ws[j], key, acts[i].seen) ==> ws[j + 1].store == ws[j].store)
      && (IsLastLanded(ws, acts, key, j, k) ==>
            Has(ws[k], key) && ws[k].store.objects[key].spec == SpecOf(acts[i].kind, acts[i].rsv))
  {
    var key := KeyOf(acts[i].kind, acts[i].rsv.id);
    assert ws[i + 1].tasks[acts[i].pid] == ws[j].tasks[acts[i].pid];
    var _, _ := LastLandedIsStored(ws, acts, key, k);
  }

  /** Every poll and every event about this instruction brings the same reservation. */
  predicate Unchanging(acts: seq<Action>, key: Key, rsv: Reservation) {
    forall i :: 0 <= i < |acts| && (acts[i].PollRead? || acts[i].WatchRead?) ==>
      KeyOf(acts[i].kind, acts[i].rsv.id) == key ==> acts[i].rsv == rsv
  }

  /** Then it does not matter which ingestor was first, which was last and what came in between. */
  lemma UnchangingReservation(ws: seq<World>, acts: seq<Action>, key: Key, rsv: Reservation, k: nat)
    requires IsRun(ws, acts) && Unchanging(acts, key, rsv) && k < |ws| && Has(ws[k], key)
    ensures ws[k].store.objects[key].spec == SpecOf(key.kind, rsv)
  {
    var _ := StoredSpecWasIngested(ws, acts, key, k);
  }

  // ---------------------------------------------------------------------------------------------
  // A raised flag may sit beside a spec that nobody checked
  // ---------------------------------------------------------------------------------------------

  lemma ExtendRun(ws: seq<World>, acts: seq<Action>, a: Action)
    requires IsRun(ws, acts) && Enabled(ws[|acts|], a)
    ensures IsRun(ws + [Next(ws[|acts|], a)], acts + [a])
  {
  }

  /** A poll of a fresh agent stores the reservation's instruction. */
  lemma PollRun(rsv: Reservation, kind: Kind, start: Time) returns (ws: seq<World>, acts: seq<Action>)
    ensures IsRun(ws, acts) && ws[|acts|].tasks == map[] && ws[|acts|].clock == start
    ensures acts == [PollRead(0, kind, rsv), Commit(0, start)] && forall i :: 0 <= i < |ws| ==> ws[i].clock == start
    ensures ws[|acts|].store == Store(map[KeyOf(kind, rsv.id) := Instruction(SpecOf(kind, rsv), BLANK_STATUS, 0)], 1)
  {
    var key, spec := KeyOf(kind, rsv.id), SpecOf(kind, rsv);
    var a, b := PollRead(0, kind, rsv), Commit(0, start);
    var w0 := Init(start);
    var w1 := w0.(tasks := map[0 := Creating(key, spec)]);
    var w2 := Next(w1, b);
    assert w2.tasks == map[];
    ExtendRun([w0], [], a);
    assert [w0] + [Next(w0, a)] == [w0, w1] && [] + [a] == [a];
    ExtendRun([w0, w1], [a], b);
    ws, acts := [w0, w1, w2], [a, b];
    assert [w0, w1] + [w2] == ws && [a] + [b] == acts;
  }

  /** A reconcile that has something to write and is not disturbed gets it written. */
  lemma ReconcileRun(ws: seq<World>, acts: seq<Action>, pid: nat, key: Key, flag: bool)
    returns (ws': seq<World>, acts': seq<Action>)
    requires IsRun(ws, acts) && pid !in ws[|acts|].tasks && Has(ws[|acts|], key)
    requires
      var w := ws[|acts|];
      Decide(key.kind, w.store.objects[key].spec, w.store.objects[key].status.flag, w.clock) == Write(flag)
    ensures IsRun(ws', acts') && ws <= ws' && |ws'| == |ws| + 3
    ensures forall i :: |ws| <= i < |ws'| ==> ws'[i].clock == ws[|acts|].clock
    ensures
      var w, w' := ws[|acts|], ws'[|acts'|];
      && w'.tasks == w.tasks && Flagged(w', key) == flag
      && w'.store == After(w.store, FlagWrite(w.store, key, w.store.objects[key], flag, w.clock))
    ensures
      var w := ws[|acts|];
      acts' == acts + [Fetch(pid, key, w.store.objects[key].version), Judge(pid), Commit(pid, w.clock)]
    ensures IsFlagWrite(ws'[|acts| + 2], acts'[|acts| + 2], key)
  {
    var w := ws[|acts|];
    var item := w.store.objects[key];
    RunKeepsInv(ws, acts, |acts|);
    assert Recorded(w.log, key, item);
    var a, b, c := Fetch(pid, key, item.version), Judge(pid), Commit(pid, w.clock);
    var w1 := w.(tasks := w.tasks[pid := Fetched(key, item)]);
    var w2 := w.(tasks := w.tasks[pid := Writing(key, item, w.clock, flag)]);
    var w3 := Next(w2, c);
    assert w3.tasks == w.tasks && Next(w, a) == w1 && Next(w1, b) == w2;
    ExtendRun(ws, acts, a);
    ExtendRun(ws + [w1], acts + [a], b);
    ExtendRun(ws + [w1] + [w2], acts + [a] + [b], c);
    ws', acts' := ws + [w1] + [w2] + [w3], acts + [a] + [b] + [c];
    assert acts' == acts + [a, b, c];
  }

  /** Any reservation can be ingested and, while unexpired, enforced. */
  lemma PollThenEnforce(rsv: Reservation, start: Time) returns (ws: seq<World>, acts: seq<Action>)
    requires !Expired(SpecOf(Provider, rsv), start)
    ensures IsRun(ws, acts) && ws[|acts|].tasks == map[] && forall i :: 0 <= i < |ws| ==> ws[i].clock == start
    ensures Flagged(ws[|acts|], KeyOf(Provider, rsv.id))
    ensures ws[|acts|].store.objects[KeyOf(Provider, rsv.id)].spec == SpecOf(Provider, rsv)
  {
    ws, acts := PollRun(rsv, Provider, start);
    ws, acts := ReconcileRun(ws, acts, 0, KeyOf(Provider, rsv.id), true);
  }

  lemma {:induction false} FlagWritesOfPrefix(
      ws: seq<World>, acts: seq<Action>, ws': seq<World>, acts': seq<Action>, key: Key, k: nat)
    requires IsRun(ws, acts) && IsRun(ws', acts') && ws <= ws' && acts <= acts' && k < |ws|
    ensures FlagWrites(ws', acts', key, k) == FlagWrites(ws, acts, key, k)
  {
    if k > 0 {
      FlagWritesOfPrefix(ws, acts, ws', acts', key, k - 1);
      assert ws'[k - 1] == ws[k - 1] && acts'[k - 1] == acts[k - 1];
    }
  }

  /** The provider reconciler rewrites an expired instruction as often as it is woken, `n` times for any
      `n`. */
  lemma {:induction false} ExpiredProviderIsRewritten(rsv: Reservation, start: Time, n: nat)
    returns (ws: seq<World>, acts: seq<Action>)
    requires Expired(SpecOf(Provider, rsv), start)
    ensures IsRun(ws, acts) && PolledOnly(acts, KeyOf(Provider, rsv.id))
    ensures FlagWrites(ws, acts, KeyOf(Provider, rsv.id), |acts|) == n
    ensures ws[|acts|].tasks == map[] && ws[|acts|].clock == start && Has(ws[|acts|], KeyOf(Provider, rsv.id))
    ensures ws[|acts|].store.objects[KeyOf(Provider, rsv.id)].spec == SpecOf(Provider, rsv)
  {
    var key := KeyOf(Provider, rsv.id);
    if n == 0 {
      ws, acts := PollRun(rsv, Provider, start);
      assert FlagWrites(ws, acts, key, 0) == 0 && FlagWrites(ws, acts, key, 1) == 0;
    } else {
      var vs, bs := ExpiredProviderIsRewritten(rsv, start, n - 1);
      ws, acts := ReconcileRun(vs, bs, 0, key, false);
      FlagWritesOfPrefix(vs, bs, ws, acts, key, |bs|);
      assert FlagWrites(ws, acts, key, |bs| + 1) == n - 1;
      assert FlagWrites(ws, acts, key, |bs| + 2) == n - 1;
    }
  }

  /** An undisturbed run that ends with this reservation's instruction in the store. */
  predicate HoldsAtEnd(ws: seq<World>, acts: seq<Action>, kind: Kind, rsv: Reservation) {
    var key := KeyOf(kind, rsv.id);
    && IsRun(ws, acts) && PolledOnly(acts, key) && Has(ws[|acts|], key)
    && ws[|acts|].store.objects[key].spec == SpecOf(kind, rsv)
  }

  /** In every such run, two accepted writes are all that the instruction gets. */
  ghost predicate TwoWritesSuffice(kind: Kind, rsv: Reservation) {
    forall ws, acts :: HoldsAtEnd(ws, acts, kind, rsv) ==> FlagWrites(ws, acts, KeyOf(kind, rsv.id), |acts|) <= 2
  }

  /** They suffice exactly for requester instructions and for those without an expiry. */
  lemma TwoWritesSufficeIff(kind: Kind, rsv: Reservation)
    ensures TwoWritesSuffice(kind, rsv) <==> kind.Requester? || rsv.expiresAt.None?
  {
    var key := KeyOf(kind, rsv.id);
    if kind.Requester? || rsv.expiresAt.None? {
      forall ws, acts | HoldsAtEnd(ws, acts, kind, rsv) ensures FlagWrites(ws, acts, key, |acts|) <= 2 {
        AtMostTwoWrites(ws, acts, key, |acts|, |acts|);
      }
    } else {
      var ws, acts := ExpiredProviderIsRewritten(rsv, rsv.expiresAt.value + 1, 3);
      assert HoldsAtEnd(ws, acts, kind, rsv) && FlagWrites(ws, acts, key, |acts|) == 3;
    }
  }

  /** At any moment of any run, a watcher event can put any spec of that reservation beside a raised
      flag, in two steps and with no reconcile in between: expired, or of another size. */
  lemma WatcherRewritesUnderFlag(
      ws: seq<World>, acts: seq<Action>, pid: nat, kind: Kind, rsv: Reservation, observed: string)
    returns (ws': seq<World>, acts': seq<Action>)
    requires IsRun(ws, acts) && pid !in ws[|acts|].tasks
    requires Flagged(ws[|acts|], KeyOf(kind, rsv.id))
    ensures IsRun(ws', acts') && ws <= ws' && |ws'| == |ws| + 2
    ensures forall i :: |ws| <= i < |ws'| ==> ws'[i].clock == ws[|acts|].clock
    ensures Flagged(ws'[|acts'|], KeyOf(kind, rsv.id))
    ensures ws'[|acts'|].store.objects[KeyOf(kind, rsv.id)].spec == SpecOf(kind, rsv)
    ensures Effect(ws'[|acts|], acts'[|acts|]) == Idle
    ensures Effect(ws'[|acts| + 1], acts'[|acts| + 1]) == Replace(KeyOf(kind, rsv.id), SpecOf(kind, rsv))
  {
    var key, w := KeyOf(kind, rsv.id), ws[|acts|];
    RunKeepsInv(ws, acts, |acts|);
    assert Recorded(w.log, key, w.store.objects[key]);
    var a := WatchRead(pid, kind, rsv, observed, Some(w.store.objects[key].version));
    var b := Commit(pid, w.clock);
    ExtendRun(ws, acts, a);
    ExtendRun(ws + [Next(w, a)], acts + [a], b);
    ws', acts' := ws + [Next(w, a)] + [Next(Next(w, a), b)], acts + [a] + [b];
  }

  /** So Enforced is not, by itself, a promise that the stored spec was ever in force: here it had
      expired before the run began. */
  lemma EnforcedBesideExpiredSpec(id: string) returns (ws: seq<World>, acts: seq<Action>)
    ensures IsRun(ws, acts) && Flagged(ws[|acts|], KeyOf(Provider, id))
    ensures forall i :: 0 <= i < |ws| ==> Expired(ws[|acts|].store.objects[KeyOf(Provider, id)].spec, ws[i].clock)
  {
    var vs, bs := PollThenEnforce(Reservation(id, "peer", "me", "1", "1Gi", None), 10);
    ws, acts := WatcherRewritesUnderFlag(
      vs, bs, 0, Provider, Reservation(id, "peer", "me", "1", "1Gi", Some(5)), "");
    assert forall i :: 0 <= i < |vs| ==> ws[i] == vs[i];
  }
}
