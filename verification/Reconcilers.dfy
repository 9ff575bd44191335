/** The two instruction reconcilers: acknowledge an instruction, then withdraw it at its expiry. */
module Reconcilers {
  import opened Base
  import opened Api

  /** Strict: an instruction whose expiry is this very instant is still in force. */
  predicate Expired(spec: Spec, now: Time) {
    spec.expiresAt.Some? && spec.expiresAt.value < now
  }

  datatype Decision = Leave | Write(flag: bool)

  /** What a reconciler that read (`spec`, `flag`) does at the clock reading `now`.  The provider
      reconciler rewrites the status of an expired instruction every time; the requester one only
      while it is still marked delivered. */
  function Decide(kind: Kind, spec: Spec, flag: bool, now: Time): Decision {
    if Expired(spec, now) then
      if kind.Provider? || flag then Write(false) else Leave
    else
      if flag then Leave else Write(true)
  }

  /** The delay asked for by an instruction that is in force, from the reading `now`. */
  function Requeue(spec: Spec, now: Time): Time {
    if spec.expiresAt.Some? && spec.expiresAt.value - now > 0 then spec.expiresAt.value - now
    else 5 * MINUTE
  }

  function FlagWrite(st: Store, key: Key, read: Instruction, flag: bool, stamp: Time): Reply {
    StatusUpdated(st, key, read.version, read.status.(flag := flag, lastUpdate := Some(stamp)))
  }

  datatype Outcome = Finished | RequeueAfter(delay: Time) | Failed

  /** The whole effect of one reconcile whose Get answered `get`, whose write meets the store `st`,
      and whose three clock readings were `check`, `stamp` and `until`. */
  function Reconciled(kind: Kind, st: Store, key: Key, get: GetResult, check: Time, stamp: Time, until: Time)
    : (r: (Store, Outcome))
  {
    match get
    case GetFailed => (st, Failed)
    case NotFound => (st, Finished)
    case Found(read) =>
      match Decide(kind, read.spec, read.status.flag, check)
      case Leave =>
        (st, if Expired(read.spec, check) then Finished else RequeueAfter(Requeue(read.spec, until)))
      case Write(flag) =>
        var reply := FlagWrite(st, key, read, flag, stamp);
        (After(st, reply),
         if reply.Refused? then Failed
         else if flag then RequeueAfter(Requeue(read.spec, until)) else Finished)
  }

  method ReconcileProvider(server: Server, name: string, get: GetResult, check: Time, stamp: Time, until: Time)
    returns (outcome: Outcome)
    modifies server
    ensures (server.store, outcome)
         == Reconciled(Provider, old(server.store), Key(Provider, name), get, check, stamp, until)
  {
    var key := Key(Provider, name);
    if get.NotFound? {
      return Finished;
    }
    if get.GetFailed? {
      return Failed;
    }
    var instruction := get.item;
    if instruction.spec.expiresAt.Some? && instruction.spec.expiresAt.value < check {
      instruction := instruction.(status := instruction.status.(flag := false, lastUpdate := Some(stamp)));
      var reply := server.UpdateStatus(key, instruction.version, instruction.status);
      if reply.Refused? {
        return Failed;
      }
      return Finished;
    }
    if instruction.status.flag {
      if instruction.spec.expiresAt.Some? {
        var timeUntilExpiry := instruction.spec.expiresAt.value - until;
        if timeUntilExpiry > 0 {
          return RequeueAfter(timeUntilExpiry);
        }
      }
      return RequeueAfter(5 * MINUTE);
    }
    instruction := instruction.(status := instruction.status.(flag := true, lastUpdate := Some(stamp)));
    var reply := server.UpdateStatus(key, instruction.version, instruction.status);
    if reply.Refused? {
      return Failed;
    }
    if instruction.spec.expiresAt.Some? {
      var timeUntilExpiry := instruction.spec.expiresAt.value - until;
      if timeUntilExpiry > 0 {
        return RequeueAfter(timeUntilExpiry);
      }
    }
    return RequeueAfter(5 * MINUTE);
  }

  method ReconcileRequester(server: Server, name: string, get: GetResult, check: Time, stamp: Time, until: Time)
    returns (outcome: Outcome)
    modifies server
    ensures (server.store, outcome)
         == Reconciled(Requester, old(server.store), Key(Requester, name), get, check, stamp, until)
  {
    var key := Key(Requester, name);
    if get.NotFound? {
      return Finished;
    }
    if get.GetFailed? {
      return Failed;
    }
    var instruction := get.item;
    if instruction.spec.expiresAt.Some? && instruction.spec.expiresAt.value < check {
      if instruction.status.flag {
        instruction := instruction.(status := instruction.status.(flag := false, lastUpdate := Some(stamp)));
        var reply := server.UpdateStatus(key, instruction.version, instruction.status);
        if reply.Refused? {
          return Failed;
        }
      }
      return Finished;
    }
    if instruction.status.flag {
      if instruction.spec.expiresAt.Some? {
        var timeUntilExpiry := instruction.spec.expiresAt.value - until;
        if timeUntilExpiry > 0 {
          return RequeueAfter(timeUntilExpiry);
        }
      }
      return RequeueAfter(5 * MINUTE);
    }
    instruction := instruction.(status := instruction.status.(flag := true, lastUpdate := Some(stamp)));
    var reply := server.UpdateStatus(key, instruction.version, instruction.status);
    if reply.Refused? {
      return Failed;
    }
    if instruction.spec.expiresAt.Some? {
      var timeUntilExpiry := instruction.spec.expiresAt.value - until;
      if timeUntilExpiry > 0 {
        return RequeueAfter(timeUntilExpiry);
      }
    }
    return RequeueAfter(5 * MINUTE);
  }

  // ---------------------------------------------------------------------------------------------
  // What a reconcile does, from the answer of its Get and the fields of the instruction
  // ---------------------------------------------------------------------------------------------

  /** A deleted instruction is done with; a failed lookup is tried again. */
  lemma ReconcileWithoutInstruction(kind: Kind, st: Store, key: Key, check: Time, stamp: Time, until: Time)
    ensures Reconciled(kind, st, key, NotFound, check, stamp, until) == (st, Finished)
    ensures Reconciled(kind, st, key, GetFailed, check, stamp, until) == (st, Failed)
  {
  }

  /** `st'` is `st` but for the instruction under `key`, whose flag and time were written. */
  predicate FlagWritten(st: Store, st': Store, key: Key, flag: bool, stamp: Time)
    requires key in st.objects
  {
    var item := st.objects[key];
    var written := Instruction(item.spec, Status(flag, Some(stamp), item.status.observed), st.revision);
    st' == Store(st.objects[key := written], st.revision + 1)
  }

  /** After its expiry an instruction is unacknowledged and not looked at again; a provider's is written
      every time, a requester's only while it is acknowledged. */
  lemma ReconcileAfterExpiry(kind: Kind, st: Store, key: Key, check: Time, stamp: Time, until: Time)
    requires key in st.objects
    requires st.objects[key].spec.expiresAt.Some? && st.objects[key].spec.expiresAt.value < check
    ensures
      var (st', outcome) := Reconciled(kind, st, key, Found(st.objects[key]), check, stamp, until);
      && outcome == Finished
      && if kind == Provider || st.objects[key].status.flag then FlagWritten(st, st', key, false, stamp) else st' == st
  {
  }

  /** Up to and at its expiry an instruction is acknowledged once, and looked at again at the expiry or, if
      it has none ahead, in five minutes. */
  lemma ReconcileInForce(kind: Kind, st: Store, key: Key, check: Time, stamp: Time, until: Time)
    requires key in st.objects
    requires st.objects[key].spec.expiresAt.None? || check <= st.objects[key].spec.expiresAt.value
    ensures
      var now, (st', outcome) :=
        st.objects[key], Reconciled(kind, st, key, Found(st.objects[key]), check, stamp, until);
      && (if now.status.flag then st' == st else FlagWritten(st, st', key, true, stamp))
      && outcome.RequeueAfter?
      && (if now.spec.expiresAt.Some? && until < now.spec.expiresAt.value then
            until + outcome.delay == now.spec.expiresAt.value
          else outcome.delay == 300 * SECOND)
  {
  }

  /** A reconcile of something other than the stored instruction never writes, and fails exactly if it
      would have to. */
  lemma ReconcileStale(
      kind: Kind, st: Store, key: Key, read: Instruction, check: Time, stamp: Time, until: Time)
    requires key in st.objects ==> st.objects[key].version != read.version
    ensures
      var past := read.spec.expiresAt.Some? && read.spec.expiresAt.value < check;
      var (st', outcome) := Reconciled(kind, st, key, Found(read), check, stamp, until);
      && st' == st
      && (outcome == Failed <==> if past then kind == Provider || read.status.flag else !read.status.flag)
      && (outcome == Finished <==> past && kind == Requester && !read.status.flag)
  {
  }

  // ---------------------------------------------------------------------------------------------
  // Timers: how long an expired instruction can stay acknowledged
  // ---------------------------------------------------------------------------------------------

  /** One wakeup of a reconciler: its clock reading at the expiry check and at the requeue choice, and
      whether it read the current instruction and had its write, if any, accepted.  A wakeup that did
      not changes nothing: a stale read ends in a refused write or in no write. */
  datatype Wakeup = Wakeup(check: Time, until: Time, lands: bool)

  /** How well wakeups keep to their time: behind the timer, between the two readings of one wakeup, and
      until the next try after one that did not land, be it the error's requeue or the cache's update. */
  datatype Slack = Slack(late: Time, busy: Time, retry: Time)

  /** The flag after a wakeup that found it at `flag`. */
  function FlagAfter(kind: Kind, spec: Spec, flag: bool, w: Wakeup): bool {
    match Decide(kind, spec, flag, w.check)
    case Leave => flag
    case Write(f) => if w.lands then f else flag
  }

  /** When the delay asked for at `w` is over. */
  function Due(spec: Spec, w: Wakeup): Time {
    w.until + Requeue(spec, w.until)
  }

  /** A wakeup is a reconcile: one that reads the stored instruction leaves its flag as `FlagAfter` says and
      asks to be woken when it is `Due`; one that reads another version changes nothing. */
  lemma WakeupIsReconcile(
      kind: Kind, st: Store, key: Key, read: Instruction, check: Time, stamp: Time, until: Time)
    requires key in st.objects && (read.version == st.objects[key].version ==> read == st.objects[key])
    ensures
      var now, w := st.objects[key], Wakeup(check, until, read == st.objects[key]);
      var (st', outcome) := Reconciled(kind, st, key, Found(read), check, stamp, until);
      && key in st'.objects && st'.objects[key].spec == now.spec
      && st'.objects[key].status.flag == FlagAfter(kind, now.spec, now.status.flag, w)
      && (w.lands && st'.objects[key].status.flag ==> outcome == RequeueAfter(Due(now.spec, w) - until))
      && (!w.lands ==> st' == st)
  {
  }

  predicate Lasts(w: Wakeup, busy: Time) {
    w.check <= w.until <= w.check + busy
  }

  predicate InTime(spec: Spec, w: Wakeup, next: Wakeup, s: Slack) {
    next.check <= if w.lands then Due(spec, w) + s.late else w.until + s.retry
  }

  /** The wakeups of one instruction, in order.  As long as it is acknowledged the next one is in time; it
      may come earlier, since every write to the instruction, the reconciler's own included, wakes the
      reconciler too. */
  predicate IsSchedule(kind: Kind, spec: Spec, ws: seq<Wakeup>, s: Slack) {
    && (forall i :: 0 <= i < |ws| ==> Lasts(ws[i], s.busy))
    && (forall i :: 0 < i < |ws| ==> ws[i - 1].until <= ws[i].check)
    && (forall i :: 0 < i < |ws| && FlagAt(kind, spec, ws, i - 1) ==> InTime(spec, ws[i - 1], ws[i], s))
  }

  /** Nothing but the timer wakes the reconciler after a wakeup that acknowledged. */
  predicate TimersOnly(kind: Kind, spec: Spec, ws: seq<Wakeup>) {
    forall i :: 0 < i < |ws| && FlagAt(kind, spec, ws, i - 1) && ws[i - 1].lands ==>
      Due(spec, ws[i - 1]) <= ws[i].check
  }

  /** The flag after wakeup `i` of an instruction that nobody else writes. */
  function FlagAt(kind: Kind, spec: Spec, ws: seq<Wakeup>, i: nat): bool
    requires i < |ws|
  {
    FlagAfter(kind, spec, if i == 0 then false else FlagAt(kind, spec, ws, i - 1), ws[i])
  }

  /** What the wakeups that did not land, directly before wakeup `i`, can take: length and retry each. */
  function LostTime(ws: seq<Wakeup>, s: Slack, i: nat): Time
    requires i <= |ws|
  {
    if i == 0 || ws[i - 1].lands then 0 else s.busy + s.retry + LostTime(ws, s, i - 1)
  }

  /** A wakeup that lands leaves the instruction acknowledged exactly if it finds it unexpired; one that
      does not leaves it as it was. */
  lemma FlagFollowsExpiry(kind: Kind, spec: Spec, ws: seq<Wakeup>, i: nat)
    requires i < |ws|
    ensures FlagAt(kind, spec, ws, i)
       <==> if ws[i].lands then !Expired(spec, ws[i].check) else i > 0 && FlagAt(kind, spec, ws, i - 1)
  {
  }

  /** A wakeup that finds the flag up comes by E + 5 minutes, plus the lateness and length of one wakeup
      and one retry for each of those lost directly before. */
  lemma {:induction false} WokenInTime(kind: Kind, spec: Spec, ws: seq<Wakeup>, s: Slack, i: nat)
    requires spec.expiresAt.Some? && IsSchedule(kind, spec, ws, s) && 0 < i < |ws|
    requires FlagAt(kind, spec, ws, i - 1)
    ensures ws[i].check <= spec.expiresAt.value + 5 * MINUTE + s.late + s.busy + LostTime(ws, s, i)
  {
    FlagFollowsExpiry(kind, spec, ws, i - 1);
    assert Lasts(ws[i - 1], s.busy) && InTime(spec, ws[i - 1], ws[i], s);
    if !ws[i - 1].lands {
      WokenInTime(kind, spec, ws, s, i - 1);
    }
  }

  lemma {:induction false} ChecksInOrder(kind: Kind, spec: Spec, ws: seq<Wakeup>, s: Slack, i: nat, k: nat)
    requires IsSchedule(kind, spec, ws, s) && i <= k < |ws|
    ensures ws[i].check <= ws[k].check && (i < k ==> ws[i].until <= ws[k].check)
  {
    if i < k {
      ChecksInOrder(kind, spec, ws, s, i, k - 1);
      assert Lasts(ws[k - 1], s.busy) && ws[k - 1].until <= ws[k].check;
    }
  }

  lemma {:induction false} StaysWithdrawn(kind: Kind, spec: Spec, ws: seq<Wakeup>, s: Slack, i: nat, k: nat)
    requires IsSchedule(kind, spec, ws, s) && i <= k < |ws|
    requires Expired(spec, ws[i].check) && !FlagAt(kind, spec, ws, i)
    ensures !FlagAt(kind, spec, ws, k)
  {
    if i < k {
      StaysWithdrawn(kind, spec, ws, s, i, k - 1);
      ChecksInOrder(kind, spec, ws, s, i, k);
      FlagFollowsExpiry(kind, spec, ws, k);
    }
  }

  /** However many wakeups there are, whatever causes them and however many are lost: the one that
      withdraws an instruction is the first to land after the expiry E; it comes by E + 5 minutes with
      exact timers and nothing lost, and no wakeup after it raises the flag again. */
  lemma WithdrawnInTime(kind: Kind, spec: Spec, ws: seq<Wakeup>, s: Slack, i: nat, k: nat)
    requires spec.expiresAt.Some? && IsSchedule(kind, spec, ws, s) && 0 < i <= k < |ws|
    requires FlagAt(kind, spec, ws, i - 1)
    ensures ws[i].check <= spec.expiresAt.value + 5 * MINUTE + s.late + s.busy + LostTime(ws, s, i)
    ensures !FlagAt(kind, spec, ws, i) <==> ws[i].lands && spec.expiresAt.value < ws[i].check
    ensures !FlagAt(kind, spec, ws, i) ==> !FlagAt(kind, spec, ws, k)
  {
    WokenInTime(kind, spec, ws, s, i);
    FlagFollowsExpiry(kind, spec, ws, i);
    if !FlagAt(kind, spec, ws, i) {
      StaysWithdrawn(kind, spec, ws, s, i, k);
    }
  }

  /** Of three wakeups that land, the third leaves the instruction acknowledged exactly if it finds it
      unexpired; woken by its timer alone, however late, it never does. */
  lemma AcknowledgedForTwoWakeups(
      kind: Kind, spec: Spec, ws: seq<Wakeup>, s: Slack, a: nat, b: nat, c: nat)
    requires spec.expiresAt.Some? && IsSchedule(kind, spec, ws, s)
    requires a < b < c < |ws| && ws[a].lands && ws[b].lands && ws[c].lands
    ensures FlagAt(kind, spec, ws, c) <==> ws[c].check <= spec.expiresAt.value
    ensures TimersOnly(kind, spec, ws) ==> !FlagAt(kind, spec, ws, c)
  {
    FlagFollowsExpiry(kind, spec, ws, a);
    FlagFollowsExpiry(kind, spec, ws, b);
    FlagFollowsExpiry(kind, spec, ws, c);
    ChecksInOrder(kind, spec, ws, s, a + 1, b);
    ChecksInOrder(kind, spec, ws, s, b + 1, c);
    ChecksInOrder(kind, spec, ws, s, a, c);
    ChecksInOrder(kind, spec, ws, s, b, c);
    assert Lasts(ws[a], s.busy) && Lasts(ws[b], s.busy);
  }

  /** One wakeup caused by the reconciler's own write is enough for a third. */
  lemma OwnWriteAddsAWakeup(kind: Kind, spec: Spec)
    requires spec.expiresAt == Some(100)
    ensures
      var ws := [Wakeup(0, 0, true), Wakeup(1, 1, true), Wakeup(100, 100, true)];
      && IsSchedule(kind, spec, ws, Slack(0, 0, 0)) && !TimersOnly(kind, spec, ws)
      && forall i :: 0 <= i < 3 ==> FlagAt(kind, spec, ws, i)
  {
    var ws := [Wakeup(0, 0, true), Wakeup(1, 1, true), Wakeup(100, 100, true)];
    FlagFollowsExpiry(kind, spec, ws, 0);
    FlagFollowsExpiry(kind, spec, ws, 1);
    FlagFollowsExpiry(kind, spec, ws, 2);
    assert Due(spec, ws[0]) == 100 > ws[1].check;
  }

  /** The bound is reached: a timer that fires exactly at the expiry finds the instruction in force
      and asks for five minutes more. */
  lemma WakingAtExpiryWaitsFiveMinutes(kind: Kind, spec: Spec, w0: Wakeup)
    requires spec.expiresAt.Some? && w0.check == w0.until < spec.expiresAt.value
    ensures
      var w1 := Wakeup(spec.expiresAt.value, spec.expiresAt.value, true);
      var w2 := Wakeup(spec.expiresAt.value + 5 * MINUTE, spec.expiresAt.value + 5 * MINUTE, true);
      && Due(spec, w0) == w1.check && Due(spec, w1) == w2.check
      && FlagAfter(kind, spec, true, w1) && !FlagAfter(kind, spec, true, w2)
  {
  }
}
