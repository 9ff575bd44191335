/** From reservations to advertised capacity: what the collector subtracts, in every concurrent run. */
module Accounting {
  import opened Base
  import opened Api
  import opened Instructions
  import opened Reconcilers
  import opened AtomicStore
  import opened Interleaving
  import opened Safety
  import opened Sums
  import opened Collector

  function UnexpiredCPU(parse: Parser, now: Time): Instruction -> int {
    (i: Instruction) => if Expired(i.spec, now) then 0 else HeldCPU(parse, i)
  }

  function UnexpiredMemory(parse: Parser, now: Time): Instruction -> int {
    (i: Instruction) => if Expired(i.spec, now) then 0 else HeldMemory(parse, i)
  }

  /** What the collector's client shows it: for some provider instructions, some version each. */
  type Cache = map<Key, Instruction>

  predicate HeldAt(ws: seq<World>, key: Key, item: Instruction, j: nat) {
    j < |ws| && Has(ws[j], key) && ws[j].store.objects[key] == item
  }

  /** Every entry is what the store held at some moment of the run: entries may lag, each by its own
      measure, and instructions may be missing. */
  ghost predicate IsCache(ws: seq<World>, cache: Cache) {
    forall k :: k in cache ==> k.kind.Provider? && exists j :: HeldAt(ws, k, cache[k], j)
  }

  /** The entries of the cache in whatever order the list has. */
  predicate Enumerates(keys: seq<Key>, cache: Cache) {
    && (forall i, j :: 0 <= i < j < |keys| ==> keys[i] != keys[j])
    && (forall k :: k in keys ==> k in cache)
    && (forall k :: k in cache ==> k in keys)
  }

  function Listed(keys: seq<Key>, cache: Cache): (held: seq<Instruction>)
    requires forall k :: k in keys ==> k in cache
    ensures |held| == |keys|
  {
    seq(|keys|, i requires 0 <= i < |keys| => cache[keys[i]])
  }

  /** A cache that has caught up is one of these. */
  lemma UpToDateCache(ws: seq<World>, acts: seq<Action>)
    requires IsRun(ws, acts)
    ensures IsCache(ws, map k | k in ws[|acts|].store.objects && k.kind.Provider? :: ws[|acts|].store.objects[k])
  {
    forall k | Has(ws[|acts|], k) ensures HeldAt(ws, k, ws[|acts|].store.objects[k], |acts|) {
    }
  }

  predicate NonNegative(parse: Parser, text: string) {
    Read(parse, text) >= 0
  }

  /** Whatever the list, the collector never reserves more than the unexpired instructions ask for. */
  lemma ReservedIsBounded(parse: Parser, held: seq<Instruction>, now: Time)
    requires forall i :: i in held ==> NonNegative(parse, i.spec.cpu) && NonNegative(parse, i.spec.memory)
    ensures Reserved(parse, held, now).cpu <= Sum(held, UnexpiredCPU(parse, now))
    ensures Reserved(parse, held, now).memory <= Sum(held, UnexpiredMemory(parse, now))
  {
    SumLeq(held, CountedCPU(parse, now), UnexpiredCPU(parse, now));
    SumLeq(held, CountedMemory(parse, now), UnexpiredMemory(parse, now));
  }

  /** At step `i` a reconcile went through on the current instruction, and only reconciles have
      written it from there to moment `j`. */
  predicate ReconciledAt(ws: seq<World>, acts: seq<Action>, key: Key, i: nat, j: nat)
    requires IsRun(ws, acts)
  {
    && i < j <= |acts|
    && Effect(ws[i], acts[i]).Acknowledge? && Effect(ws[i], acts[i]).key == key
    && forall m :: i < m < j ==> !Disturbs(Effect(ws[m], acts[m]), key)
  }

  /** Every entry was, when the store held it, reconciled since it was last written otherwise. */
  ghost predicate AllReconciled(ws: seq<World>, acts: seq<Action>, cache: Cache)
    requires IsRun(ws, acts)
  {
    forall k :: k in cache ==> exists i, j :: HeldAt(ws, k, cache[k], j) && ReconciledAt(ws, acts, k, i, j)
  }

  lemma {:induction false} ClockMovesForward(ws: seq<World>, acts: seq<Action>, j: nat, k: nat)
    requires IsRun(ws, acts) && j <= k < |ws|
    ensures ws[j].clock <= ws[k].clock
  {
    if j < k {
      ClockMovesForward(ws, acts, j, k - 1);
    }
  }

  lemma ReconciledIsSettled(ws: seq<World>, acts: seq<Action>, key: Key, i: nat, j: nat, now: Time)
    requires IsRun(ws, acts) && ReconciledAt(ws, acts, key, i, j) && ws[|acts|].clock <= now
    ensures Has(ws[j], key)
    ensures Flagged(ws[j], key) || Expired(ws[j].store.objects[key].spec, now)
  {
    RunIsAtomic(ws, acts);
    ClockMovesForward(ws, acts, j, |acts|);
    var ss, es := Views(ws), Effects(ws, acts);
    assert Possible(ss[i], es[i]) && ss[i + 1] == Fire(ss[i], es[i]);
    AcknowledgeSettles(ss[i], es[i]);
    assert Undisturbed(es, key, i + 1, j);
    UndisturbedRun(ss, es, key, i + 1, j);
  }

  /** Once every listed version was one that a reconcile had gone through, the reserved total is exactly
      what the unexpired ones ask for, however far the clock has moved since. */
  lemma ReservedIsExact(ws: seq<World>, acts: seq<Action>, cache: Cache, keys: seq<Key>, parse: Parser, now: Time)
    requires IsRun(ws, acts) && AllReconciled(ws, acts, cache) && ws[|acts|].clock <= now
    requires Enumerates(keys, cache)
    ensures
      var held := Listed(keys, cache);
      && Reserved(parse, held, now).cpu == Sum(held, UnexpiredCPU(parse, now))
      && Reserved(parse, held, now).memory == Sum(held, UnexpiredMemory(parse, now))
  {
    var held := Listed(keys, cache);
    forall item | item in held
      ensures CountedCPU(parse, now)(item) == UnexpiredCPU(parse, now)(item)
      ensures CountedMemory(parse, now)(item) == UnexpiredMemory(parse, now)(item)
    {
      var n :| 0 <= n < |held| && held[n] == item;
      assert keys[n] in keys;
      var i, j :| HeldAt(ws, keys[n], item, j) && ReconciledAt(ws, acts, keys[n], i, j);
      ReconciledIsSettled(ws, acts, keys[n], i, j, now);
    }
    SumEq(held, CountedCPU(parse, now), UnexpiredCPU(parse, now));
    SumEq(held, CountedMemory(parse, now), UnexpiredMemory(parse, now));
  }

  function IdOf(i: Instruction): string {
    i.spec.reservation
  }

  /** What a reservation contributes: that of its own entry in the cache, or nothing. */
  function HolderShare(cache: Cache, f: Instruction -> int): string -> int {
    (id: string) => if KeyOf(Provider, id) in cache then f(cache[KeyOf(Provider, id)]) else 0
  }

  lemma CachedUnderItsKey(ws: seq<World>, acts: seq<Action>, cache: Cache, key: Key)
    requires IsRun(ws, acts) && IsCache(ws, cache) && key in cache
    ensures key == KeyOf(Provider, IdOf(cache[key]))
  {
    var j :| HeldAt(ws, key, cache[key], j);
    OneInstructionPerReservation(ws, acts, j, key, key);
  }

  /** In every run, from whatever the cache shows, the listed instructions name distinct reservations,
      and any total over them is the total over those reservations, each counted once. */
  lemma EachReservationCountsOnce(
      ws: seq<World>, acts: seq<Action>, cache: Cache, keys: seq<Key>, f: Instruction -> int)
    requires IsRun(ws, acts) && IsCache(ws, cache) && Enumerates(keys, cache)
    ensures
      var ids := Map(Listed(keys, cache), IdOf);
      && (forall i, j :: 0 <= i < j < |ids| ==> ids[i] != ids[j])
      && (forall id :: id in ids <==> KeyOf(Provider, id) in cache)
      && Sum(Listed(keys, cache), f) == Sum(ids, HolderShare(cache, f))
  {
    var held := Listed(keys, cache);
    var ids := Map(held, IdOf);
    forall i | 0 <= i < |ids| ensures keys[i] == KeyOf(Provider, ids[i]) && held[i] == cache[keys[i]] {
      assert keys[i] in keys;
      CachedUnderItsKey(ws, acts, cache, keys[i]);
    }
    forall id | KeyOf(Provider, id) in cache ensures id in ids {
      var key := KeyOf(Provider, id);
      var i :| 0 <= i < |keys| && keys[i] == key;
      NamingIsInjective(Provider, id, ids[i]);
      assert ids[i] == id;
    }
    forall id | id in ids ensures KeyOf(Provider, id) in cache {
      var i :| 0 <= i < |ids| && ids[i] == id;
      assert keys[i] in keys;
    }
    SumOfMap(held, IdOf, HolderShare(cache, f), f);
  }

  /** The advertised figure, from end to end: what is available, plus what active pods take, plus what
      each unexpired reservation in the cache asks for, counted once, is what the ready nodes offer. */
  lemma AdvertisedAvailability(
      ws: seq<World>, acts: seq<Action>, cache: Cache, keys: seq<Key>, parse: Parser, s: Snapshot)
    requires IsRun(ws, acts) && IsCache(ws, cache) && AllReconciled(ws, acts, cache) && Enumerates(keys, cache)
    requires Complete(s) && s.held.value == Listed(keys, cache) && ws[|acts|].clock <= s.now
    ensures
      var m, ids := Collected(parse, s), Map(Listed(keys, cache), IdOf);
      && m.available.cpu + m.allocation.cpu + Sum(ids, HolderShare(cache, UnexpiredCPU(parse, s.now)))
         == Sum(s.nodes.value, Offer(CPU))
      && m.available.memory + m.allocation.memory + Sum(ids, HolderShare(cache, UnexpiredMemory(parse, s.now)))
         == Sum(s.nodes.value, Offer(Memory))
  {
    ReservedIsExact(ws, acts, cache, keys, parse, s.now);
    EachReservationCountsOnce(ws, acts, cache, keys, UnexpiredCPU(parse, s.now));
    EachReservationCountsOnce(ws, acts, cache, keys, UnexpiredMemory(parse, s.now));
    Conservation(parse, s);
  }

  predicate InForce(rsv: Reservation, now: Time) {
    rsv.expiresAt.None? || now <= rsv.expiresAt.value
  }

  /** In every run, an enforced instruction in the cache goes back to a reservation that was ingested
      under its key; until that expires it takes exactly what the reservation asked for off the
      advertised figure, and afterwards nothing, without any further step. */
  lemma ReservationIsHeldUntilExpiry(
      ws: seq<World>, acts: seq<Action>, cache: Cache, keys: seq<Key>, n: nat, parse: Parser, now: Time)
    returns (i: nat)
    requires IsRun(ws, acts) && IsCache(ws, cache) && Enumerates(keys, cache)
    requires n < |keys| && cache[keys[n]].status.flag
    ensures i < |acts| && Ingests(acts[i], keys[n], cache[keys[n]].spec)
    ensures
      var rsv, held := acts[i].rsv, Listed(keys, cache);
      var all, others := Reserved(parse, held, now), Reserved(parse, Without(held, n), now);
      && all.cpu == others.cpu + (if InForce(rsv, now) then Read(parse, rsv.cpu) else 0)
      && all.memory == others.memory
         + (if InForce(rsv, now) && !Broken(parse, rsv.cpu) then Read(parse, rsv.memory) else 0)
  {
    var key, held := keys[n], Listed(keys, cache);
    var j :| HeldAt(ws, key, cache[key], j);
    i := StoredSpecWasIngested(ws, acts, key, j);
    SumRemove(held, n, CountedCPU(parse, now));
    SumRemove(held, n, CountedMemory(parse, now));
  }
}
