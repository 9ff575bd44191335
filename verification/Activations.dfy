/** The methods of the components are the activations of the concurrent machine: one call is what its
    steps do, with whatever the others have done to the store in between. */
module Activations {
  import opened Base
  import opened Api
  import opened Instructions
  import opened Reconcilers
  import AtomicStore
  import opened Interleaving
  import opened Ingestion

  /** A reconciler judges in world `w` and writes, if at all, in a later world `w'`. */
  lemma ReconcileActivation(w: World, w': World, pid: nat, stamp: Time, until: Time)
    requires Enabled(w, Judge(pid))
    ensures
      var task := w.tasks[pid];
      var judged := Next(w, Judge(pid));
      var call := Reconciled(task.key.kind, w'.store, task.key, Found(task.item), w.clock, stamp, until);
      if pid !in judged.tasks then call.0 == w'.store && call.1 != Failed
      else
        pid in w'.tasks && w'.tasks[pid] == judged.tasks[pid] && Enabled(w', Commit(pid, stamp)) ==>
          && Next(w', Commit(pid, stamp)).store == call.0
          && (call.1 == Failed <==> Effect(w', Commit(pid, stamp)) == AtomicStore.Idle)
  {
  }

  lemma PollActivation(w: World, pid: nat, kind: Kind, rsv: Reservation, stamp: Time)
    requires Enabled(w, Commit(pid, stamp)) && w.tasks[pid] == Creating(KeyOf(kind, rsv.id), SpecOf(kind, rsv))
    ensures Next(w, Commit(pid, stamp)).store == PollOne(kind, w.store, Polled(rsv, "Reserved", NotFound))
  {
  }

  /** The watcher writes the spec in world `w` and clears the status in a later world `w'`; the first write
      lands exactly if its lookup is current in `w`, and with nothing in between the two are one upsert. */
  lemma UpsertActivation(
      w: World, w': World, pid: nat, kind: Kind, rsv: Reservation, observed: string, get: GetResult,
      first: Time, second: Time)
    requires Enabled(w, Commit(pid, first)) && !get.GetFailed?
    requires w.tasks[pid] == Upserting(
                               KeyOf(kind, rsv.id), SpecOf(kind, rsv), observed,
                               if get.Found? then Some(get.item.version) else None)
    requires second <= w'.clock
    ensures
      var reply, v := FirstWrite(kind, w.store, rsv, get), Next(w, Commit(pid, first));
      && v.store == After(w.store, reply)
      && (reply.Accepted? <==> IsCurrent(w.store, KeyOf(kind, rsv.id), get))
      && (reply.Accepted? <==> AtomicStore.Stores(Effect(w, Commit(pid, first)), KeyOf(kind, rsv.id)))
      && (reply.Refused? ==> pid !in v.tasks && v.store == Upserted(kind, w.store, rsv, observed, Lookup(get, second)))
      && (reply.Accepted? ==>
            && pid in v.tasks
            && (pid in w'.tasks && w'.tasks[pid] == v.tasks[pid] ==>
                  && Enabled(w', Commit(pid, second))
                  && var end := Next(w', Commit(pid, second));
                     && pid !in end.tasks
                     && end.store
                        == After(w'.store, SecondWrite(kind, w'.store, rsv.id, reply.item, observed, second))
                     && (w'.store == v.store ==>
                           end.store == Upserted(kind, w.store, rsv, observed, Lookup(get, second)))))
  {
  }
}
