/** The poller and the watcher, fed from the same reservations, build the same instructions. */
module Agreement {
  import opened Base
  import opened Api
  import opened Instructions
  import opened Ingestion

  /** A reservation as the broker serves it; an empty `expiry` stands for a field left out. */
  datatype Record = Record(
    id: string,
    requester: string,
    target: string,
    cpu: string,
    memory: string,
    phase: string,
    expiry: string)

  const EMPTY := Store(map[], 0)

  /** Left out, or well formed by section 5.6 of RFC 3339 as the parser reads it. */
  predicate Readable(w: Watcher, r: Record) {
    r.expiry == "" || w.parse(r.expiry).Some?
  }

  /** What a record means to either ingestor that takes it up. */
  function Decoded(w: Watcher, r: Record): Reservation {
    Reservation(r.id, r.requester, r.target, r.cpu, r.memory, w.Expiry(r.expiry))
  }

  function EventOf(r: Record, change: Change, version: string): WatchEvent {
    Changed(
      change, r.id, version,
      Some(EventSpec(Some(r.requester), Some(r.target), Some(EventResources(Some(r.cpu), Some(r.memory))))),
      Some(EventStatus(Some(r.phase), if r.expiry == "" then None else Some(r.expiry))))
  }

  // ---------------------------------------------------------------------------------------------
  // The poll side
  // ---------------------------------------------------------------------------------------------

  /** A record of a poll answer, with what the lookup of its instruction will say. */
  datatype Line = Line(record: Record, get: GetResult)

  datatype Answer = NoAnswer | Answer(lines: seq<Line>)

  predicate Decodes(w: Watcher, a: Answer) {
    a.Answer? && forall i :: 0 <= i < |a.lines| ==> Readable(w, a.lines[i].record)
  }

  function Entry(w: Watcher, line: Line): Polled {
    Polled(Decoded(w, line.record), line.record.phase, line.get)
  }

  /** An answer is decoded as a whole: one unreadable record, in whatever phase, and the poll fails. */
  function Fetched(w: Watcher, a: Answer): Option<seq<Polled>> {
    if Decodes(w, a) then Some(seq(|a.lines|, i requires 0 <= i < |a.lines| => Entry(w, a.lines[i]))) else None
  }

  function Rounds(w: Watcher, answers: seq<Answer>): seq<Option<seq<Polled>>> {
    seq(|answers|, n requires 0 <= n < |answers| => Fetched(w, answers[n]))
  }

  /** What the poller has stored after these answers, from an empty store. */
  function PolledStore(w: Watcher, kind: Kind, answers: seq<Answer>): Store {
    PollRounds(kind, EMPTY, Rounds(w, answers))
  }

  /** The record is the reservation's, in phase Reserved, when the cache shows no instruction for it. */
  predicate IsOpen(line: Line, id: string) {
    line.record.phase == "Reserved" && line.record.id == id && line.get.NotFound?
  }

  predicate Offers(a: Answer, id: string) {
    a.Answer? && exists i :: 0 <= i < |a.lines| && IsOpen(a.lines[i], id)
  }

  /** Some answer offers the reservation and can be read as a whole. */
  predicate TakenUp(w: Watcher, answers: seq<Answer>, id: string) {
    exists n :: 0 <= n < |answers| && Decodes(w, answers[n]) && Offers(answers[n], id)
  }

  predicate ListsFrom(db: map<string, Record>, a: Answer) {
    a.Answer? ==> forall i :: 0 <= i < |a.lines| && a.lines[i].record.phase == "Reserved" ==>
      a.lines[i].record.id in db && a.lines[i].record == db[a.lines[i].record.id]
  }

  /** Every record polled in phase Reserved is the unchanging one in `db`. */
  predicate AnsweredFrom(db: map<string, Record>, answers: seq<Answer>) {
    forall n :: 0 <= n < |answers| ==> ListsFrom(db, answers[n])
  }

  /** Some Reserved entry was polled when the cache showed no instruction for it. */
  predicate MissedByPoll(ps: seq<Polled>, id: string) {
    exists i :: 0 <= i < |ps| && Misses(id, ps[i])
  }

  lemma {:induction false} FirstMissExists(ps: seq<Polled>, id: string) returns (m: nat)
    requires MissedByPoll(ps, id)
    ensures IsFirstMiss(ps, id, m)
  {
    var init := ps[..|ps| - 1];
    if MissedByPoll(init, id) {
      m := FirstMissExists(init, id);
    } else {
      m := |ps| - 1;
      assert forall i :: 0 <= i < m ==> ps[i] == init[i];
    }
  }

  lemma MissedIffTakenUp(w: Watcher, answers: seq<Answer>, id: string)
    ensures MissedByPoll(Entries(Rounds(w, answers)), id) <==> TakenUp(w, answers, id)
  {
    var fs := Rounds(w, answers);
    var ps := Entries(fs);
    if MissedByPoll(ps, id) {
      var m :| 0 <= m < |ps| && Misses(id, ps[m]);
      var n, i := EntryOrigin(fs, m);
      assert IsOpen(answers[n].lines[i], id);
    }
    if TakenUp(w, answers, id) {
      var n :| 0 <= n < |answers| && Decodes(w, answers[n]) && Offers(answers[n], id);
      var i :| 0 <= i < |answers[n].lines| && IsOpen(answers[n].lines[i], id);
      var m := EntryIsListed(fs, n, i, fs[n].value[i]);
      assert Misses(id, ps[m]);
    }
  }

  /** What the poller holds of a reservation that never changes. */
  lemma PollSide(w: Watcher, kind: Kind, db: map<string, Record>, answers: seq<Answer>, id: string)
    requires AnsweredFrom(db, answers)
    ensures
      var key, polled := KeyOf(kind, id), PolledStore(w, kind, answers).objects;
      && (key in polled <==> TakenUp(w, answers, id))
      && (key in polled ==> id in db && polled[key].spec == SpecOf(kind, Decoded(w, db[id])))
  {
    var fs := Rounds(w, answers);
    var ps := Entries(fs);
    RoundsAreOnePoll(kind, EMPTY, fs);
    MissedIffTakenUp(w, answers, id);
    if MissedByPoll(ps, id) {
      var m := FirstMissExists(ps, id);
      FirstMissWins(kind, EMPTY, ps, id, m);
      var n, i := EntryOrigin(fs, m);
      assert ListsFrom(db, answers[n]) && ps[m] == Entry(w, answers[n].lines[i]);
    } else {
      PollLeavesAbsent(kind, EMPTY, ps, id);
    }
  }

  // ---------------------------------------------------------------------------------------------
  // The watch side
  // ---------------------------------------------------------------------------------------------

  predicate WatchedFrom(w: Watcher, kind: Kind, db: map<string, Record>, ds: seq<Delivery>) {
    forall i :: 0 <= i < |ds| && w.Concerns(kind, ds[i].event) ==>
      var e := ds[i].event;
      e.name in db && e == EventOf(db[e.name], e.change, e.version)
  }

  /** Some event about the reservation found its lookup current. */
  predicate LandedByWatch(w: Watcher, kind: Kind, ds: seq<Delivery>, id: string) {
    exists i :: 0 <= i < |ds| && Lands(w, kind, EMPTY, ds, id, i)
  }

  lemma {:induction false} LastLandedExists(w: Watcher, kind: Kind, ds: seq<Delivery>, id: string, n: nat)
    returns (m: nat)
    requires n <= |ds| && exists i :: 0 <= i < n && Lands(w, kind, EMPTY, ds, id, i)
    ensures m < n && Lands(w, kind, EMPTY, ds, id, m)
    ensures forall i :: m < i < n ==> !Lands(w, kind, EMPTY, ds, id, i)
  {
    if Lands(w, kind, EMPTY, ds, id, n - 1) {
      m := n - 1;
    } else {
      m := LastLandedExists(w, kind, ds, id, n - 1);
    }
  }

  /** What the watcher holds of a reservation that never changes. */
  lemma WatchSide(w: Watcher, kind: Kind, db: map<string, Record>, ds: seq<Delivery>, id: string)
    requires WatchedFrom(w, kind, db, ds)
    ensures
      var key, watched := KeyOf(kind, id), w.WatchAll(EMPTY, ds).objects;
      && (key in watched <==> LandedByWatch(w, kind, ds, id))
      && (key in watched ==> id in db && watched[key].spec == SpecOf(kind, Decoded(w, db[id])))
  {
    if LandedByWatch(w, kind, ds, id) {
      var m := LastLandedExists(w, kind, ds, id, |ds|);
      LastLandedWins(w, kind, EMPTY, ds, id, m);
      assert w.ReservationOf(ds[m].event) == Decoded(w, db[id]);
    } else {
      NoneLandedKeeps(w, kind, EMPTY, ds, id);
    }
  }

  // ---------------------------------------------------------------------------------------------
  // Both
  // ---------------------------------------------------------------------------------------------

  /** Both stores hold the key with the same spec. */
  predicate ShareSpec(st: Store, st': Store, key: Key) {
    key in st.objects && key in st'.objects && st.objects[key].spec == st'.objects[key].spec
  }

  /** However often and in whatever order each of them sees reservations that never change, and however
      stale their lookups: the two never hold different specs of one, and of one that the watcher has
      landed they hold the same if and only if some answer that offered it could be read as a whole. */
  lemma IngestorsAgree(
      w: Watcher, kind: Kind, db: map<string, Record>, answers: seq<Answer>, ds: seq<Delivery>, id: string)
    requires AnsweredFrom(db, answers) && WatchedFrom(w, kind, db, ds)
    ensures
      var key, polled, watched := KeyOf(kind, id), PolledStore(w, kind, answers), w.WatchAll(EMPTY, ds);
      && (key in polled.objects && key in watched.objects ==> ShareSpec(polled, watched, key))
      && (LandedByWatch(w, kind, ds, id) ==> (ShareSpec(polled, watched, key) <==> TakenUp(w, answers, id)))
      && (TakenUp(w, answers, id) ==> (ShareSpec(polled, watched, key) <==> LandedByWatch(w, kind, ds, id)))
      && (key !in polled.objects && key !in watched.objects
          <==> !TakenUp(w, answers, id) && !LandedByWatch(w, kind, ds, id))
  {
    PollSide(w, kind, db, answers, id);
    WatchSide(w, kind, db, ds, id);
  }

  /** A reservation that every answer offers: all that is left to ask for is one readable answer.  Its own
      expiry being readable is not enough, since another record can spoil every answer. */
  lemma AgreementNeedsReadableAnswer(
      w: Watcher, kind: Kind, db: map<string, Record>, answers: seq<Answer>, ds: seq<Delivery>, id: string)
    requires AnsweredFrom(db, answers) && WatchedFrom(w, kind, db, ds) && LandedByWatch(w, kind, ds, id)
    requires forall n :: 0 <= n < |answers| ==> Offers(answers[n], id)
    ensures ShareSpec(PolledStore(w, kind, answers), w.WatchAll(EMPTY, ds), KeyOf(kind, id))
       <==> exists n :: 0 <= n < |answers| && Decodes(w, answers[n])
  {
    IngestorsAgree(w, kind, db, answers, ds, id);
  }

  /** It can: a readable reservation polled beside an unreadable one of any phase is watched, not polled. */
  lemma AnotherRecordSpoilsThePoll(w: Watcher, kind: Kind, r: Record, bad: Record, l: Lookup)
    requires r.phase == "Reserved" && w.cluster == (if kind.Provider? then r.target else r.requester)
    requires Readable(w, r) && !Readable(w, bad) && l.get == NotFound
    ensures KeyOf(kind, r.id) !in PolledStore(w, kind, [Answer([Line(r, NotFound), Line(bad, NotFound)])]).objects
    ensures KeyOf(kind, r.id) in w.WatchAll(EMPTY, [Delivery(EventOf(r, Added, ""), l, l)]).objects
  {
    var answers := [Answer([Line(r, NotFound), Line(bad, NotFound)])];
    assert answers[0].lines[1].record == bad;
    MissedIffTakenUp(w, answers, r.id);
    RoundsAreOnePoll(kind, EMPTY, Rounds(w, answers));
    PollLeavesAbsent(kind, EMPTY, Entries(Rounds(w, answers)), r.id);
  }

  /** A reservation whose expiry cannot be read never gets through a poll, and what the watcher stores of
      it never expires. */
  lemma UnreadableExpiry(
      w: Watcher, kind: Kind, db: map<string, Record>, answers: seq<Answer>, ds: seq<Delivery>, id: string)
    requires AnsweredFrom(db, answers) && WatchedFrom(w, kind, db, ds)
    requires id in db && !Readable(w, db[id])
    ensures
      var key, polled, watched := KeyOf(kind, id), PolledStore(w, kind, answers), w.WatchAll(EMPTY, ds);
      && key !in polled.objects
      && (key in watched.objects <==> LandedByWatch(w, kind, ds, id))
      && (key in watched.objects ==> watched.objects[key].spec.expiresAt == None)
  {
    PollSide(w, kind, db, answers, id);
    WatchSide(w, kind, db, ds, id);
  }
}
