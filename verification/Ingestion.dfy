/** The two ways a reservation reaches the store: the HTTP poller, which creates once, and the legacy
    watcher, which rewrites on every event. */
module Ingestion {
  import opened Base
  import opened Api
  import opened Instructions

  function FreshGet(st: Store, key: Key): GetResult {
    if key in st.objects then Found(st.objects[key]) else NotFound
  }

  // ---------------------------------------------------------------------------------------------
  // The poller
  // ---------------------------------------------------------------------------------------------

  /** One reservation of a poll answer, with what the cached lookup of its instruction said. */
  datatype Polled = Polled(rsv: Reservation, phase: string, get: GetResult)

  predicate Holds(p: Polled) {
    p.phase == "Reserved"
  }

  function PollOne(kind: Kind, st: Store, p: Polled): Store {
    if Holds(p) && p.get.NotFound? then
      After(st, Created(st, KeyOf(kind, p.rsv.id), SpecOf(kind, p.rsv)))
    else st
  }

  function PollAll(kind: Kind, st: Store, ps: seq<Polled>): Store {
    if ps == [] then st
    else PollOne(kind, PollAll(kind, st, ps[..|ps| - 1]), ps[|ps| - 1])
  }

  /** A poll for one role; `fetched` is None when the broker gave no answer that could be decoded. */
  function PollRound(kind: Kind, st: Store, fetched: Option<seq<Polled>>): Store {
    if fetched.Some? then PollAll(kind, st, fetched.value) else st
  }

  function PollRounds(kind: Kind, st: Store, fs: seq<Option<seq<Polled>>>): Store {
    if fs == [] then st
    else PollRound(kind, PollRounds(kind, st, fs[..|fs| - 1]), fs[|fs| - 1])
  }

  method CreateInstruction(server: Server, kind: Kind, p: Polled) returns (ok: bool)
    requires Holds(p)
    modifies server
    ensures server.store == PollOne(kind, old(server.store), p)
    ensures !ok <==> p.get.GetFailed? || (p.get.NotFound? && KeyOf(kind, p.rsv.id) in old(server.store.objects))
  {
    if p.get.Found? {
      return true;
    }
    if !p.get.NotFound? {
      return false;
    }
    var rsv := p.rsv;
    var reply: Reply;
    match kind {
      case Requester =>
        reply := server.Create(
          Key(Requester, rsv.id),
          Spec(rsv.id, rsv.target, rsv.cpu, rsv.memory,
               "Use " + rsv.target + " for " + rsv.cpu + " CPU / " + rsv.memory + " Memory",
               rsv.expiresAt));
      case Provider =>
        reply := server.Create(
          Key(Provider, rsv.id + "-provider"),
          Spec(rsv.id, rsv.requester, rsv.cpu, rsv.memory,
               "Hold " + rsv.cpu + " CPU / " + rsv.memory + " Memory for requester " + rsv.requester,
               rsv.expiresAt));
    }
    return reply.Accepted?;
  }

  method PollAndProcess(server: Server, kind: Kind, fetched: Option<seq<Polled>>) returns (ok: bool)
    modifies server
    ensures ok == fetched.Some?
    ensures server.store == PollRound(kind, old(server.store), fetched)
  {
    if fetched.None? {
      return false;
    }
    var ps := fetched.value;
    for i := 0 to |ps|
      invariant server.store == PollAll(kind, old(server.store), ps[..i])
    {
      assert ps[..i + 1][..i] == ps[..i];
      if ps[i].phase != "Reserved" {
        continue;
      }
      var _ := CreateInstruction(server, kind, ps[i]);
    }
    assert ps[..|ps|] == ps;
    return true;
  }

  /** One tick of the poller: first as requester, then as provider, each failing on its own. */
  method Poll(server: Server, requested: Option<seq<Polled>>, provided: Option<seq<Polled>>)
    modifies server
    ensures server.store == PollRound(Provider, PollRound(Requester, old(server.store), requested), provided)
  {
    var _ := PollAndProcess(server, Requester, requested);
    var _ := PollAndProcess(server, Provider, provided);
  }

  /** What one entry of a poll does, field by field: nothing unless the reservation is Reserved, the lookup
      found nothing and there is nothing; else a new, unacknowledged instruction. */
  lemma PollStoresFields(kind: Kind, st: Store, p: Polled)
    ensures
      var key := Key(kind, if kind == Provider then p.rsv.id + "-provider" else p.rsv.id);
      var st' := PollOne(kind, st, p);
      if p.phase != "Reserved" || p.get != NotFound || key in st.objects then st' == st
      else
        && key in st'.objects && st' == Store(st.objects[key := st'.objects[key]], st.revision + 1)
        && var item := st'.objects[key];
           && item.status == Status(false, None, "") && item.version == st.revision
           && item.spec.reservation == p.rsv.id && item.spec.expiresAt == p.rsv.expiresAt
           && item.spec.cpu == p.rsv.cpu && item.spec.memory == p.rsv.memory
           && item.spec.peer == (if kind == Provider then p.rsv.requester else p.rsv.target)
           && item.spec.message ==
              if kind == Provider then
                "Hold " + p.rsv.cpu + " CPU / " + p.rsv.memory + " Memory for requester " + p.rsv.requester
              else "Use " + p.rsv.target + " for " + p.rsv.cpu + " CPU / " + p.rsv.memory + " Memory"
  {
  }

  /** An instruction that exists survives any polling untouched, version and status included. */
  lemma {:induction false} PollNeverRewrites(kind: Kind, st: Store, ps: seq<Polled>, key: Key)
    requires key in st.objects
    ensures key in PollAll(kind, st, ps).objects && PollAll(kind, st, ps).objects[key] == st.objects[key]
  {
    if ps != [] {
      PollNeverRewrites(kind, st, ps[..|ps| - 1], key);
    }
  }

  /** A Reserved entry of this reservation whose lookup found no instruction: the poller will create. */
  predicate Misses(id: string, p: Polled) {
    Holds(p) && p.rsv.id == id && p.get.NotFound?
  }

  predicate IsFirstMiss(ps: seq<Polled>, id: string, m: nat) {
    m < |ps| && Misses(id, ps[m]) && forall i :: 0 <= i < m ==> !Misses(id, ps[i])
  }

  lemma {:induction false} PollLeavesAbsent(kind: Kind, st: Store, ps: seq<Polled>, id: string)
    requires KeyOf(kind, id) !in st.objects
    requires forall i :: 0 <= i < |ps| ==> !Misses(id, ps[i])
    ensures KeyOf(kind, id) !in PollAll(kind, st, ps).objects
  {
    if ps != [] {
      PollLeavesAbsent(kind, st, ps[..|ps| - 1], id);
      var p := ps[|ps| - 1];
      if NameOf(kind, p.rsv.id) == NameOf(kind, id) {
        NamingIsInjective(kind, p.rsv.id, id);
      }
    }
  }

  /** Whatever the lookups answer, the first Reserved entry whose lookup found nothing decides the spec
      of a new reservation. */
  lemma {:induction false} FirstMissWins(kind: Kind, st: Store, ps: seq<Polled>, id: string, m: nat)
    requires KeyOf(kind, id) !in st.objects && IsFirstMiss(ps, id, m)
    ensures KeyOf(kind, id) in PollAll(kind, st, ps).objects
    ensures PollAll(kind, st, ps).objects[KeyOf(kind, id)].spec == SpecOf(kind, ps[m].rsv)
  {
    var init := ps[..|ps| - 1];
    if m == |ps| - 1 {
      PollLeavesAbsent(kind, st, init, id);
    } else {
      FirstMissWins(kind, st, init, id, m);
    }
  }

  /** A Reserved entry whose lookup did not fail; after a failed one the poller tries again next time. */
  predicate Sights(id: string, p: Polled) {
    Holds(p) && p.rsv.id == id && !p.get.GetFailed?
  }

  /** The cache may lag behind, but it shows nothing that the store does not hold. */
  predicate NoPhantom(kind: Kind, st: Store, ps: seq<Polled>) {
    forall i :: 0 <= i < |ps| && ps[i].get.Found? ==> KeyOf(kind, ps[i].rsv.id) in PollAll(kind, st, ps[..i]).objects
  }

  /** With a cache that merely lags, the first sighting decides, however stale the lookups are. */
  lemma FirstSightingWins(kind: Kind, st: Store, ps: seq<Polled>, id: string, m: nat)
    requires KeyOf(kind, id) !in st.objects && NoPhantom(kind, st, ps)
    requires m < |ps| && Sights(id, ps[m]) && forall i :: 0 <= i < m ==> !Sights(id, ps[i])
    ensures KeyOf(kind, id) in PollAll(kind, st, ps).objects
    ensures PollAll(kind, st, ps).objects[KeyOf(kind, id)].spec == SpecOf(kind, ps[m].rsv)
  {
    var before := ps[..m];
    assert forall i :: 0 <= i < |before| ==> before[i] == ps[i];
    PollLeavesAbsent(kind, st, before, id);
    assert Misses(id, ps[m]);
    FirstMissWins(kind, st, ps, id, m);
  }

  /** The entries of all polls that got an answer, one after the other. */
  function Entries(fs: seq<Option<seq<Polled>>>): seq<Polled> {
    if fs == [] then []
    else Entries(fs[..|fs| - 1]) + (if fs[|fs| - 1].Some? then fs[|fs| - 1].value else [])
  }

  lemma {:induction false} PollsAppend(kind: Kind, st: Store, a: seq<Polled>, b: seq<Polled>)
    ensures PollAll(kind, PollAll(kind, st, a), b) == PollAll(kind, st, a + b)
  {
    if b == [] {
      assert a + b == a;
    } else {
      var init := b[..|b| - 1];
      PollsAppend(kind, st, a, init);
      assert (a + b)[..|a + b| - 1] == a + init;
    }
  }

  /** Any number of polls, failed ones among them, do what one poll of all their entries does; so what
      holds of one poll holds of a whole history of them. */
  lemma {:induction false} RoundsAreOnePoll(kind: Kind, st: Store, fs: seq<Option<seq<Polled>>>)
    ensures PollRounds(kind, st, fs) == PollAll(kind, st, Entries(fs))
  {
    if fs != [] {
      var init, last := fs[..|fs| - 1], fs[|fs| - 1];
      RoundsAreOnePoll(kind, st, init);
      if last.Some? {
        PollsAppend(kind, st, Entries(init), last.value);
      } else {
        assert Entries(fs) == Entries(init);
      }
    }
  }

  /** Entry `i` of poll `n`. */
  predicate IsEntry(fs: seq<Option<seq<Polled>>>, n: nat, i: nat, p: Polled) {
    n < |fs| && fs[n].Some? && i < |fs[n].value| && fs[n].value[i] == p
  }

  lemma {:induction false} EntryOrigin(fs: seq<Option<seq<Polled>>>, m: nat) returns (n: nat, i: nat)
    requires m < |Entries(fs)|
    ensures IsEntry(fs, n, i, Entries(fs)[m])
  {
    var init := fs[..|fs| - 1];
    if m < |Entries(init)| {
      n, i := EntryOrigin(init, m);
    } else {
      n, i := |fs| - 1, m - |Entries(init)|;
    }
  }

  lemma {:induction false} EntryIsListed(fs: seq<Option<seq<Polled>>>, n: nat, i: nat, p: Polled) returns (m: nat)
    requires IsEntry(fs, n, i, p)
    ensures m < |Entries(fs)| && Entries(fs)[m] == p
  {
    var init := fs[..|fs| - 1];
    if n < |init| {
      m := EntryIsListed(init, n, i, p);
    } else {
      m := |Entries(init)| + i;
    }
  }

  // ---------------------------------------------------------------------------------------------
  // The watcher
  // ---------------------------------------------------------------------------------------------

  datatype Change = Added | Modified | Deleted

  datatype EventResources = EventResources(cpu: Option<string>, memory: Option<string>)

  datatype EventSpec = EventSpec(
    requesterID: Option<string>,
    targetClusterID: Option<string>,
    resources: Option<EventResources>)

  datatype EventStatus = EventStatus(phase: Option<string>, expiresAt: Option<string>)

  /** A watch event: an object of the broker, or something that is not one (a Status, on errors). */
  datatype WatchEvent =
    | Foreign
    | Changed(change: Change, name: string, version: string, spec: Option<EventSpec>, status: Option<EventStatus>)

  datatype Lookup = Lookup(get: GetResult, stamp: Time)

  datatype Delivery = Delivery(event: WatchEvent, requester: Lookup, provider: Lookup)

  function Text(o: Option<string>): string {
    if o.Some? then o.value else ""
  }

  /** The agent that watches: its cluster ID and how it reads RFC 3339 time stamps. */
  datatype Watcher = Watcher(cluster: string, parse: string -> Option<Time>) {

    /** The event survives every `continue` of the loop. */
    predicate Passes(e: WatchEvent) {
      && e.Changed?
      && e.spec.Some?
      && (e.spec.value.requesterID.Some? || e.spec.value.targetClusterID.Some?)
      && (Text(e.spec.value.requesterID) == cluster || Text(e.spec.value.targetClusterID) == cluster)
      && e.status.Some?
      && e.status.value.phase == Some("Reserved")
      && e.spec.value.resources.Some?
    }

    /** The event concerns this cluster in that role. */
    predicate Concerns(kind: Kind, e: WatchEvent) {
      && Passes(e)
      && cluster == Text(if kind.Provider? then e.spec.value.targetClusterID else e.spec.value.requesterID)
    }

    /** An expiry that cannot be read counts as none. */
    function Expiry(text: string): Option<Time> {
      if text == "" then None else parse(text)
    }

    function ReservationOf(e: WatchEvent): Reservation
      requires Passes(e)
    {
      Reservation(
        e.name,
        Text(e.spec.value.requesterID),
        Text(e.spec.value.targetClusterID),
        Text(e.spec.value.resources.value.cpu),
        Text(e.spec.value.resources.value.memory),
        Expiry(Text(e.status.value.expiresAt)))
    }

    function Role(kind: Kind, st: Store, d: Delivery): Store {
      if Concerns(kind, d.event) then
        Upserted(kind, st, ReservationOf(d.event), d.event.version, if kind.Provider? then d.provider else d.requester)
      else st
    }

    function WatchOne(st: Store, d: Delivery): Store {
      Role(Provider, Role(Requester, st, d), d)
    }

    function WatchAll(st: Store, ds: seq<Delivery>): Store {
      if ds == [] then st
      else WatchOne(WatchAll(st, ds[..|ds| - 1]), ds[|ds| - 1])
    }

    method ProcessEvents(server: Server, ds: seq<Delivery>)
      modifies server
      ensures server.store == WatchAll(old(server.store), ds)
    {
      for i := 0 to |ds|
        invariant server.store == WatchAll(old(server.store), ds[..i])
      {
        assert ds[..i + 1][..i] == ds[..i];
        var e := ds[i].event;
        if !e.Changed? {
          continue;
        }
        if e.spec.None? {
          continue;
        }
        var spec := e.spec.value;
        var requesterID, targetCluster := Text(spec.requesterID), Text(spec.targetClusterID);
        if
          || (spec.requesterID.None? && spec.targetClusterID.None?)
          || (requesterID != cluster && targetCluster != cluster)
        {
          continue;
        }
        if e.status.None? {
          continue;
        }
        if e.status.value.phase.None? {
          continue;
        }
        if e.status.value.phase.value != "Reserved" {
          continue;
        }
        if spec.resources.None? {
          continue;
        }
        assert Passes(e);
        var rsv := ReservationOf(e);
        if requesterID == cluster {
          var _ := Upsert(server, Requester, rsv, e.version, ds[i].requester);
        }
        if targetCluster == cluster {
          var _ := Upsert(server, Provider, rsv, e.version, ds[i].provider);
        }
      }
      assert ds[..|ds|] == ds;
    }
  }

  function FirstWrite(kind: Kind, st: Store, rsv: Reservation, get: GetResult): Reply
    requires !get.GetFailed?
  {
    if get.NotFound? then Created(st, KeyOf(kind, rsv.id), SpecOf(kind, rsv))
    else SpecUpdated(st, KeyOf(kind, rsv.id), get.item.version, SpecOf(kind, rsv))
  }

  /** The status is cleared on the version that the first write produced. */
  function SecondWrite(kind: Kind, st: Store, id: string, item: Instruction, observed: string, stamp: Time): Reply {
    StatusUpdated(st, KeyOf(kind, id), item.version, Cleared(kind, item.status, observed, stamp))
  }

  /** The two writes, when nothing comes between them. */
  function Upserted(kind: Kind, st: Store, rsv: Reservation, observed: string, l: Lookup): Store {
    if l.get.GetFailed? then st
    else
      var reply := FirstWrite(kind, st, rsv, l.get);
      if reply.Refused? then st
      else
        After(reply.store, SecondWrite(kind, reply.store, rsv.id, reply.item, observed, l.stamp))
  }

  method Upsert(server: Server, kind: Kind, rsv: Reservation, observed: string, l: Lookup) returns (ok: bool)
    modifies server
    ensures server.store == Upserted(kind, old(server.store), rsv, observed, l)
    ensures ok <==> IsCurrent(old(server.store), KeyOf(kind, rsv.id), l.get)
  {
    var key, spec;
    match kind {
      case Requester =>
        key := Key(Requester, rsv.id);
        spec := Spec(rsv.id, rsv.target, rsv.cpu, rsv.memory,
                     "Use " + rsv.target + " for " + rsv.cpu + " CPU / " + rsv.memory + " Memory",
                     rsv.expiresAt);
      case Provider =>
        key := Key(Provider, rsv.id + "-provider");
        spec := Spec(rsv.id, rsv.requester, rsv.cpu, rsv.memory,
                     "Hold " + rsv.cpu + " CPU / " + rsv.memory + " Memory for requester " + rsv.requester,
                     rsv.expiresAt);
    }
    var reply: Reply;
    match l.get {
      case GetFailed => return false;
      case NotFound => reply := server.Create(key, spec);
      case Found(item) => reply := server.UpdateSpec(key, item.version, spec);
    }
    if reply.Refused? {
      return false;
    }
    var status := reply.item.status.(flag := false, lastUpdate := Some(l.stamp));
    if kind.Requester? {
      status := status.(observed := observed);
    }
    var second := server.UpdateStatus(key, reply.item.version, status);
    return second.Accepted?;
  }

  /** The lookup showed the instruction as it stands: its current version, or its absence. */
  predicate IsCurrent(st: Store, key: Key, get: GetResult) {
    match get
    case GetFailed => false
    case NotFound => key !in st.objects
    case Found(item) => key in st.objects && st.objects[key].version == item.version
  }

  /** An upsert takes effect exactly when its lookup was current; otherwise the event is lost. */
  lemma UpsertLandsIffCurrent(kind: Kind, st: Store, rsv: Reservation, observed: string, l: Lookup)
    ensures
      var key, st' := KeyOf(kind, rsv.id), Upserted(kind, st, rsv, observed, l);
      if IsCurrent(st, key, l.get) then
        && st'.revision == st.revision + 2
        && key in st'.objects && st'.objects[key].spec == SpecOf(kind, rsv) && !st'.objects[key].status.flag
        && st'.objects - {key} == st.objects - {key}
      else st' == st
  {
  }

  // ---------------------------------------------------------------------------------------------
  // What an event does, from its fields
  // ---------------------------------------------------------------------------------------------

  /** The field of the event that decides whether this cluster has that role. */
  function RoleField(kind: Kind, spec: EventSpec): Option<string> {
    match kind
    case Provider => spec.targetClusterID
    case Requester => spec.requesterID
  }

  /** An absent field reads as the empty string, so an agent without a name is named by it. */
  predicate IsNamed(cluster: string, field: Option<string>) {
    field == Some(cluster) || (field == None && cluster == "")
  }

  /** Whatever its lookups say, an event changes nothing unless it is an object in phase Reserved, with
      resources, that names this cluster in some role. */
  lemma IgnoredEvents(w: Watcher, st: Store, d: Delivery)
    requires
      || d.event.Foreign?
      || d.event.spec.None?
      || d.event.spec.value.resources.None?
      || d.event.status.None?
      || d.event.status.value.phase != Some("Reserved")
      || (d.event.spec.value.requesterID == None && d.event.spec.value.targetClusterID == None)
      || (forall kind :: !IsNamed(w.cluster, RoleField(kind, d.event.spec.value)))
    ensures w.WatchOne(st, d) == st
  {
    if d.event.Changed? && d.event.spec.Some? {
      var spec := d.event.spec.value;
      assert RoleField(Provider, spec) == spec.targetClusterID && RoleField(Requester, spec) == spec.requesterID;
    }
  }

  /** An event touches no instruction but those of its own reservation, and of these only in the roles in
      which it names this cluster. */
  lemma OtherRolesKept(w: Watcher, st: Store, d: Delivery, key: Key)
    requires d.event.Changed? && d.event.spec.Some? ==>
               || !IsNamed(w.cluster, RoleField(key.kind, d.event.spec.value))
               || key.name != (if key.kind == Provider then d.event.name + "-provider" else d.event.name)
    ensures SameAt(st, w.WatchOne(st, d), key)
  {
    RoleKeeps(w, Requester, st, d, key);
    RoleKeeps(w, Provider, w.Role(Requester, st, d), d, key);
  }

  lemma RoleStoresFields(w: Watcher, kind: Kind, st: Store, d: Delivery)
    requires w.Concerns(kind, d.event)
    ensures
      var key, st', l :=
        KeyOf(kind, d.event.name), w.Role(kind, st, d), if kind.Provider? then d.provider else d.requester;
      if !IsCurrent(st, key, l.get) then st' == st
      else
        && key in st'.objects
        && st'.objects[key].spec == SpecOf(kind, w.ReservationOf(d.event))
        && st'.objects[key].status
           == Cleared(
                kind, if key in st.objects then st.objects[key].status else BLANK_STATUS, d.event.version, l.stamp)
  {
  }

  /** An event in phase Reserved that names this cluster in a role stores, if its lookup was current, an
      unacknowledged instruction with the event's own fields; a requester's is tied to the version of the
      event, a provider's keeps what it had. */
  lemma EventStoresFields(w: Watcher, kind: Kind, st: Store, d: Delivery)
    requires d.event.Changed? && d.event.spec.Some? && d.event.status.Some?
    requires d.event.status.value.phase == Some("Reserved") && d.event.spec.value.resources.Some?
    requires d.event.spec.value.requesterID.Some? || d.event.spec.value.targetClusterID.Some?
    requires IsNamed(w.cluster, RoleField(kind, d.event.spec.value))
    ensures
      var e, spec, st' := d.event, d.event.spec.value, w.WatchOne(st, d);
      var key := Key(kind, if kind == Provider then e.name + "-provider" else e.name);
      var l := if kind == Provider then d.provider else d.requester;
      if !IsCurrent(st, key, l.get) then SameAt(st, st', key)
      else
        && key in st'.objects
        && var item := st'.objects[key];
           && item.status.flag == false && item.status.lastUpdate == Some(l.stamp)
           && item.status.observed == (if kind == Requester then e.version
                                       else if key in st.objects then st.objects[key].status.observed else "")
           && item.spec.reservation == e.name
           && item.spec.peer == Text(if kind == Provider then spec.requesterID else spec.targetClusterID)
           && item.spec.cpu == Text(spec.resources.value.cpu)
           && item.spec.memory == Text(spec.resources.value.memory)
           && item.spec.expiresAt == (if Text(e.status.value.expiresAt) == "" then None
                                      else w.parse(e.status.value.expiresAt.value))
  {
    var e := d.event;
    var key := KeyOf(kind, e.name);
    assert w.Concerns(kind, e);
    if kind == Provider {
      RoleKeeps(w, Requester, st, d, key);
      RoleStoresFields(w, Provider, w.Role(Requester, st, d), d);
    } else {
      RoleStoresFields(w, Requester, st, d);
      RoleKeeps(w, Provider, w.Role(Requester, st, d), d, key);
    }
  }

  // ---------------------------------------------------------------------------------------------
  // The last event that lands wins
  // ---------------------------------------------------------------------------------------------

  function GetOf(kind: Kind, d: Delivery): GetResult {
    (if kind.Provider? then d.provider else d.requester).get
  }

  predicate About(w: Watcher, kind: Kind, id: string, d: Delivery) {
    w.Concerns(kind, d.event) && d.event.name == id
  }

  /** Event `i` is about the reservation, and its lookup was current when it was handled. */
  predicate Lands(w: Watcher, kind: Kind, st: Store, ds: seq<Delivery>, id: string, i: nat)
    requires i < |ds|
  {
    About(w, kind, id, ds[i]) && IsCurrent(w.WatchAll(st, ds[..i]), KeyOf(kind, id), GetOf(kind, ds[i]))
  }

  predicate IsLastLanded(w: Watcher, kind: Kind, st: Store, ds: seq<Delivery>, id: string, m: nat) {
    m < |ds| && Lands(w, kind, st, ds, id, m) && forall i :: m < i < |ds| ==> !Lands(w, kind, st, ds, id, i)
  }

  /** The two stores hold the same under this key, or both nothing. */
  predicate SameAt(st: Store, st': Store, key: Key) {
    (key in st'.objects <==> key in st.objects) && (key in st.objects ==> st'.objects[key] == st.objects[key])
  }

  lemma RoleKeeps(w: Watcher, role: Kind, st: Store, d: Delivery, key: Key)
    requires w.Concerns(role, d.event) && key == KeyOf(role, d.event.name) ==> !IsCurrent(st, key, GetOf(role, d))
    ensures SameAt(st, w.Role(role, st, d), key)
  {
  }

  /** An event about something else, or with a lookup that is not current, leaves the key as it was. */
  lemma OtherKeysKept(w: Watcher, kind: Kind, st: Store, d: Delivery, id: string)
    requires About(w, kind, id, d) ==> !IsCurrent(st, KeyOf(kind, id), GetOf(kind, d))
    ensures SameAt(st, w.WatchOne(st, d), KeyOf(kind, id))
  {
    var key := KeyOf(kind, id);
    if w.Passes(d.event) && key == KeyOf(kind, d.event.name) {
      NamingIsInjective(kind, d.event.name, id);
    }
    RoleKeeps(w, Requester, st, d, key);
    RoleKeeps(w, Provider, w.Role(Requester, st, d), d, key);
  }

  lemma UpsertStores(w: Watcher, kind: Kind, st: Store, d: Delivery)
    requires w.Concerns(kind, d.event) && IsCurrent(st, KeyOf(kind, d.event.name), GetOf(kind, d))
    ensures
      var key, st' := KeyOf(kind, d.event.name), w.WatchOne(st, d);
      && key in st'.objects
      && st'.objects[key].spec == SpecOf(kind, w.ReservationOf(d.event))
      && !st'.objects[key].status.flag
  {
    var key := KeyOf(kind, d.event.name);
    if kind == Provider {
      RoleKeeps(w, Requester, st, d, key);
      RoleStoresFields(w, Provider, w.Role(Requester, st, d), d);
    } else {
      RoleStoresFields(w, Requester, st, d);
      RoleKeeps(w, Provider, w.Role(Requester, st, d), d, key);
    }
  }

  lemma LandsInPrefix(w: Watcher, kind: Kind, st: Store, ds: seq<Delivery>, id: string, n: nat, i: nat)
    requires i < n <= |ds|
    ensures Lands(w, kind, st, ds[..n], id, i) <==> Lands(w, kind, st, ds, id, i)
  {
    assert ds[..n][..i] == ds[..i];
  }

  /** For any events and any lookups, fresh, stale or failed: the stored spec is that of the last event
      that landed, and the instruction is back to unacknowledged. */
  lemma {:induction false} LastLandedWins(w: Watcher, kind: Kind, st: Store, ds: seq<Delivery>, id: string, m: nat)
    requires IsLastLanded(w, kind, st, ds, id, m)
    ensures
      var key, st' := KeyOf(kind, id), w.WatchAll(st, ds);
      && key in st'.objects
      && st'.objects[key].spec == SpecOf(kind, w.ReservationOf(ds[m].event))
      && !st'.objects[key].status.flag
  {
    var init, d := ds[..|ds| - 1], ds[|ds| - 1];
    if m == |ds| - 1 {
      UpsertStores(w, kind, w.WatchAll(st, init), d);
    } else {
      forall i | m <= i < |init| ensures Lands(w, kind, st, init, id, i) <==> Lands(w, kind, st, ds, id, i) {
        LandsInPrefix(w, kind, st, ds, id, |init|, i);
      }
      LastLandedWins(w, kind, st, init, id, m);
      assert !Lands(w, kind, st, ds, id, |ds| - 1);
      OtherKeysKept(w, kind, w.WatchAll(st, init), d, id);
    }
  }

  /** If none lands, the key keeps what it had. */
  lemma {:induction false} NoneLandedKeeps(w: Watcher, kind: Kind, st: Store, ds: seq<Delivery>, id: string)
    requires forall i :: 0 <= i < |ds| ==> !Lands(w, kind, st, ds, id, i)
    ensures SameAt(st, w.WatchAll(st, ds), KeyOf(kind, id))
  {
    if ds != [] {
      var init := ds[..|ds| - 1];
      forall i | 0 <= i < |init| ensures !Lands(w, kind, st, init, id, i) {
        LandsInPrefix(w, kind, st, ds, id, |init|, i);
      }
      NoneLandedKeeps(w, kind, st, init, id);
      assert !Lands(w, kind, st, ds, id, |ds| - 1);
      OtherKeysKept(w, kind, w.WatchAll(st, init), ds[|ds| - 1], id);
    }
  }

  /** The last Reserved event of a reservation decides as soon as its own lookup is current, whatever
      became of the earlier ones. */
  lemma LastEventWins(w: Watcher, kind: Kind, st: Store, ds: seq<Delivery>, id: string, m: nat)
    requires m < |ds| && About(w, kind, id, ds[m]) && forall i :: m < i < |ds| ==> !About(w, kind, id, ds[i])
    requires IsCurrent(w.WatchAll(st, ds[..m]), KeyOf(kind, id), GetOf(kind, ds[m]))
    ensures
      var key, st' := KeyOf(kind, id), w.WatchAll(st, ds);
      && key in st'.objects
      && st'.objects[key].spec == SpecOf(kind, w.ReservationOf(ds[m].event))
      && !st'.objects[key].status.flag
  {
    assert Lands(w, kind, st, ds, id, m);
    LastLandedWins(w, kind, st, ds, id, m);
  }
}
