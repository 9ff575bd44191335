/** The HTTP publish protocol: GET the advertisement, copy its Reserved field, POST the whole record.
    Nothing ties the POST to the GET.  The broker is taken to replace its record by what is posted. */
module HttpPublishing {
  import opened Base
  import Publishing

  type Section = Publishing.Section

  /** The GET as the code sees it: no answer, or a status with a body that decoded or not. */
  datatype HttpGet = NoAnswer | HttpAnswer(status: int, decoded: Option<Option<Section>>)

  predicate Useful(get: HttpGet) {
    get.HttpAnswer? && get.status == 200 && get.decoded.Some?
  }

  /** `own` is the Reserved field the agent starts from; the conversion to a DTO leaves it unset. */
  method PreserveReserved(own: Option<Section>, get: HttpGet) returns (posted: Option<Section>)
    ensures posted == if get.HttpAnswer? && get.status == 200 && get.decoded.Some? && get.decoded.value.Some?
                      then get.decoded.value else own
    ensures own == None ==> posted == Posted(get)
  {
    posted := own;
    if get.HttpAnswer? && get.status == 200 {
      if get.decoded.Some? {
        var existing := get.decoded.value;
        if existing.Some? {
          posted := existing;
        }
      }
    }
  }

  function Posted(get: HttpGet): Option<Section> {
    if Useful(get) then get.decoded.value else None
  }

  // ---------------------------------------------------------------------------------------------
  // Interleavings
  // ---------------------------------------------------------------------------------------------

  /** The broker's Reserved field, and for each publish in flight what it will post there. */
  datatype World = World(reserved: Option<Section>, tasks: map<nat, Option<Section>>)

  datatype Action =
    | Get(pid: nat, useful: bool)
    | Post(pid: nat)
    | BrokerWrites(reserved: Option<Section>)

  predicate Enabled(w: World, a: Action) {
    match a
    case Get(pid, _) => pid !in w.tasks
    case Post(pid) => pid in w.tasks
    case BrokerWrites(_) => true
  }

  function Next(w: World, a: Action): World
    requires Enabled(w, a)
  {
    match a
    case Get(pid, useful) =>
      var answer := if useful then HttpAnswer(200, Some(w.reserved)) else NoAnswer;
      w.(tasks := w.tasks[pid := Posted(answer)])
    case Post(pid) => World(w.tasks[pid], w.tasks - {pid})
    case BrokerWrites(reserved) => w.(reserved := reserved)
  }

  predicate IsRun(ws: seq<World>, acts: seq<Action>) {
    && |ws| == |acts| + 1
    && ws[0] == World(None, map[])
    && forall i :: 0 <= i < |acts| ==> Enabled(ws[i], acts[i]) && ws[i + 1] == Next(ws[i], acts[i])
  }

  function LastWord(acts: seq<Action>): Option<Section> {
    if acts == [] then None
    else if acts[|acts| - 1].BrokerWrites? then acts[|acts| - 1].reserved
    else LastWord(acts[..|acts| - 1])
  }

  /** The GET of the publish that is in flight under `pid` after the first `k` actions. */
  predicate Opened(acts: seq<Action>, pid: nat, g: nat, k: nat) {
    && g < k <= |acts|
    && acts[g].Get? && acts[g].pid == pid
    && forall i :: g < i < k ==> !(acts[i].Post? && acts[i].pid == pid) && !(acts[i].Get? && acts[i].pid == pid)
  }

  lemma {:induction false} OpenedExists(ws: seq<World>, acts: seq<Action>, pid: nat, k: nat) returns (g: nat)
    requires IsRun(ws, acts) && k < |ws| && pid in ws[k].tasks
    ensures Opened(acts, pid, g, k)
    ensures ws[k].tasks[pid] == if acts[g].useful then ws[g].reserved else None
  {
    var a := acts[k - 1];
    if a.Get? && a.pid == pid {
      g := k - 1;
    } else {
      g := OpenedExists(ws, acts, pid, k - 1);
    }
  }

  /** What a POST puts there is nothing at all, or exactly what the broker held at its GET. */
  lemma PostedIsOldOrNothing(ws: seq<World>, acts: seq<Action>, k: nat) returns (g: nat)
    requires IsRun(ws, acts) && k < |acts| && acts[k].Post?
    ensures Opened(acts, acts[k].pid, g, k)
    ensures ws[k + 1].reserved == if acts[g].useful then ws[g].reserved else None
  {
    g := OpenedExists(ws, acts, acts[k].pid, k);
  }

  lemma {:induction false} LastWordStays(acts: seq<Action>, g: nat, k: nat)
    requires g <= k <= |acts|
    requires forall i :: g <= i < k ==> !acts[i].BrokerWrites?
    ensures LastWord(acts[..g]) == LastWord(acts[..k])
  {
    if g < k {
      LastWordStays(acts, g, k - 1);
      assert acts[..k][..k - 1] == acts[..k - 1];
    }
  }

  predicate Faithful(ws: seq<World>, acts: seq<Action>, k: nat)
    requires IsRun(ws, acts) && k < |ws|
  {
    forall i :: 0 <= i <= k ==> ws[i].reserved == LastWord(acts[..i])
  }

  /** Told from the actions alone: at POST `p` the broker's last word is the one at its GET `g` or, if
      the GET was of no use, nothing. */
  predicate HarmlessPost(acts: seq<Action>, g: nat, p: nat)
    requires g < p < |acts| && acts[g].Get?
  {
    LastWord(acts[..p]) == if acts[g].useful then LastWord(acts[..g]) else None
  }

  /** All POSTs among the first `k` actions are harmless. */
  predicate Harmless(acts: seq<Action>, k: nat)
    requires k <= |acts|
  {
    forall g, p :: 0 <= g < p < k && acts[p].Post? && Opened(acts, acts[p].pid, g, p) ==> HarmlessPost(acts, g, p)
  }

  lemma OpenedIsUnique(acts: seq<Action>, pid: nat, g: nat, h: nat, k: nat)
    requires Opened(acts, pid, g, k) && Opened(acts, pid, h, k)
    ensures g == h
  {
    assert !(g < h) && !(h < g);
  }

  lemma HarmlessStep(acts: seq<Action>, g: nat, p: nat)
    requires p < |acts| && acts[p].Post? && Opened(acts, acts[p].pid, g, p)
    ensures Harmless(acts, p + 1) <==> Harmless(acts, p) && HarmlessPost(acts, g, p)
  {
    forall h: nat | Opened(acts, acts[p].pid, h, p) ensures h == g {
      OpenedIsUnique(acts, acts[p].pid, g, h, p);
    }
  }

  /** A POST keeps the field at the broker's last word exactly when it is harmless. */
  lemma PostStep(ws: seq<World>, acts: seq<Action>, p: nat) returns (g: nat)
    requires IsRun(ws, acts) && p < |acts| && acts[p].Post? && Faithful(ws, acts, p)
    ensures Opened(acts, acts[p].pid, g, p)
    ensures ws[p + 1].reserved == LastWord(acts[..p + 1]) <==> HarmlessPost(acts, g, p)
  {
    g := PostedIsOldOrNothing(ws, acts, p);
    assert acts[..p + 1][..p] == acts[..p];
  }

  lemma FaithfulStep(ws: seq<World>, acts: seq<Action>, p: nat)
    requires IsRun(ws, acts) && p < |acts|
    ensures Faithful(ws, acts, p + 1) <==> Faithful(ws, acts, p) && ws[p + 1].reserved == LastWord(acts[..p + 1])
    ensures !acts[p].Post? && Faithful(ws, acts, p) ==> ws[p + 1].reserved == LastWord(acts[..p + 1])
  {
    assert acts[..p + 1][..p] == acts[..p];
  }

  /** The field is the broker's last word throughout a run if and only if every POST of it is harmless. */
  lemma {:induction false} FaithfulIffHarmless(ws: seq<World>, acts: seq<Action>, k: nat)
    requires IsRun(ws, acts) && k < |ws|
    ensures Faithful(ws, acts, k) <==> Harmless(acts, k)
  {
    if k > 0 {
      FaithfulIffHarmless(ws, acts, k - 1);
      FaithfulStep(ws, acts, k - 1);
      if acts[k - 1].Post? && Faithful(ws, acts, k - 1) {
        var g := PostStep(ws, acts, k - 1);
        HarmlessStep(acts, g, k - 1);
      }
    }
  }

  /** Every POST follows a useful GET of its own with no broker write in between. */
  predicate Undisturbed(acts: seq<Action>) {
    forall g, k :: 0 <= g < k < |acts| && acts[k].Post? && Opened(acts, acts[k].pid, g, k) ==>
      acts[g].useful && forall i :: g < i < k ==> !acts[i].BrokerWrites?
  }

  /** In such runs Reserved is the broker's last word throughout, as it always is with versions. */
  lemma UndisturbedRunsPreserve(ws: seq<World>, acts: seq<Action>)
    requires IsRun(ws, acts) && Undisturbed(acts)
    ensures Faithful(ws, acts, |acts|)
  {
    forall g, p | 0 <= g < p < |acts| && acts[p].Post? && Opened(acts, acts[p].pid, g, p)
      ensures HarmlessPost(acts, g, p)
    {
      LastWordStays(acts, g, p);
    }
    FaithfulIffHarmless(ws, acts, |acts|);
  }

  /** Two ways to lose a reservation the versioned protocol does not have: a broker write between GET
      and POST is undone, and a GET that fails wipes the field. */
  lemma HttpLosesReserved(before: Option<Section>, after: Section, useful: bool)
    returns (ws: seq<World>, acts: seq<Action>)
    requires useful ==> before != Some(after)
    ensures IsRun(ws, acts) && |ws| == 5
    ensures acts == [BrokerWrites(before), Get(0, useful), BrokerWrites(Some(after)), Post(0)]
    ensures LastWord(acts) == Some(after) && ws[4].reserved != Some(after)
    ensures ws[4].reserved == if useful then before else None
  {
    acts := [BrokerWrites(before), Get(0, useful), BrokerWrites(Some(after)), Post(0)];
    var w0 := World(None, map[]);
    var w1 := Next(w0, acts[0]);
    var w2 := Next(w1, acts[1]);
    var w3 := Next(w2, acts[2]);
    var w4 := Next(w3, acts[3]);
    ws := [w0, w1, w2, w3, w4];
    assert acts[..3] == [BrokerWrites(before), Get(0, useful), BrokerWrites(Some(after))];
  }
}
