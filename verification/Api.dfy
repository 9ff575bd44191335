/** The agent's local API server: instruction objects under optimistic concurrency.

    Two custom resources live here, ProviderInstruction and ReservationInstruction.  They carry the
    same fields up to the name of the peer cluster and of the acknowledgement flag, so one store
    indexed by `Kind` holds both.  `status` is a subresource: a write of the object leaves the
    stored status alone, and a write of the status leaves the stored spec alone. */
module Api {
  import opened Base

  datatype Kind = Provider | Requester

  datatype Key = Key(kind: Kind, name: string)

  /** `peer` is RequesterClusterID on a provider instruction, TargetClusterID on a requester one. */
  datatype Spec = Spec(
    reservation: string,
    peer: string,
    cpu: string,
    memory: string,
    message: string,
    expiresAt: Option<Time>)

  /** `flag` is Enforced on a provider instruction and Delivered on a requester one. */
  datatype Status = Status(flag: bool, lastUpdate: Option<Time>, observed: string)

  datatype Instruction = Instruction(spec: Spec, status: Status, version: nat)

  /** `revision` is the version the next accepted write will receive. */
  datatype Store = Store(objects: map<Key, Instruction>, revision: nat)

  datatype ApiError = NotFoundError | Conflict | AlreadyExists

  datatype Reply =
    | Accepted(store: Store, item: Instruction)
    | Refused(error: ApiError)

  /** What a Get through the cached client can answer. */
  datatype GetResult = Found(item: Instruction) | NotFound | GetFailed

  const BLANK_STATUS := Status(false, None, "")

  function After(st: Store, reply: Reply): Store {
    if reply.Accepted? then reply.store else st
  }

  function Put(st: Store, key: Key, spec: Spec, status: Status): Reply {
    var item := Instruction(spec, status, st.revision);
    Accepted(Store(st.objects[key := item], st.revision + 1), item)
  }

  function Created(st: Store, key: Key, spec: Spec): Reply {
    if key in st.objects then Refused(AlreadyExists) else Put(st, key, spec, BLANK_STATUS)
  }

  function SpecUpdated(st: Store, key: Key, version: nat, spec: Spec): Reply {
    if key !in st.objects then Refused(NotFoundError)
    else if st.objects[key].version != version then Refused(Conflict)
    else Put(st, key, spec, st.objects[key].status)
  }

  function StatusUpdated(st: Store, key: Key, version: nat, status: Status): Reply {
    if key !in st.objects then Refused(NotFoundError)
    else if st.objects[key].version != version then Refused(Conflict)
    else Put(st, key, st.objects[key].spec, status)
  }

  /** A write is accepted or refused for one reason, and an accepted one changes one key, which gets the
      next version; the part of the instruction it is not about stays. */
  lemma WriteAnswers(st: Store, key: Key, version: nat, spec: Spec, status: Status)
    ensures
      var created, updated, marked :=
        Created(st, key, spec), SpecUpdated(st, key, version, spec), StatusUpdated(st, key, version, status);
      if key !in st.objects then
        && created.Accepted? && created.item == Instruction(spec, Status(false, None, ""), st.revision)
        && created.store == Store(st.objects[key := created.item], st.revision + 1)
        && updated == Refused(NotFoundError) && marked == Refused(NotFoundError)
      else if st.objects[key].version == version then
        && created == Refused(AlreadyExists) && updated.Accepted? && marked.Accepted?
        && updated.item == st.objects[key].(spec := spec, version := st.revision)
        && updated.store == Store(st.objects[key := updated.item], st.revision + 1)
        && marked.item == st.objects[key].(status := status, version := st.revision)
        && marked.store == Store(st.objects[key := marked.item], st.revision + 1)
      else
        created == Refused(AlreadyExists) && updated == Refused(Conflict) && marked == Refused(Conflict)
  {
  }

  /** The server as the components see it: a mutable store behind three writes. */
  class Server {
    var store: Store

    constructor ()
      ensures store == Store(map[], 0)
    {
      store := Store(map[], 0);
    }

    method Create(key: Key, spec: Spec) returns (reply: Reply)
      modifies this
      ensures reply == Created(old(store), key, spec)
      ensures store == After(old(store), reply)
    {
      if key in store.objects {
        return Refused(AlreadyExists);
      }
      reply := Put(store, key, spec, BLANK_STATUS);
      store := reply.store;
    }

    method UpdateSpec(key: Key, version: nat, spec: Spec) returns (reply: Reply)
      modifies this
      ensures reply == SpecUpdated(old(store), key, version, spec)
      ensures store == After(old(store), reply)
    {
      if key !in store.objects {
        return Refused(NotFoundError);
      }
      if store.objects[key].version != version {
        return Refused(Conflict);
      }
      reply := Put(store, key, spec, store.objects[key].status);
      store := reply.store;
    }

    method UpdateStatus(key: Key, version: nat, status: Status) returns (reply: Reply)
      modifies this
      ensures reply == StatusUpdated(old(store), key, version, status)
      ensures store == After(old(store), reply)
    {
      if key !in store.objects {
        return Refused(NotFoundError);
      }
      if store.objects[key].version != version {
        return Refused(Conflict);
      }
      reply := Put(store, key, store.objects[key].spec, status);
      store := reply.store;
    }
  }
}
