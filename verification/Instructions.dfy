/** How a broker reservation becomes a local instruction: its key and its spec.
    The poller and the watcher build both in the same way. */
module Instructions {
  import opened Base
  import opened Api

  /** A reservation as an ingestor holds it, with its expiry already turned into an instant. */
  datatype Reservation = Reservation(
    id: string,
    requester: string,
    target: string,
    cpu: string,
    memory: string,
    expiresAt: Option<Time>)

  const PROVIDER_SUFFIX := "-provider"

  function NameOf(kind: Kind, id: string): string {
    match kind
    case Requester => id
    case Provider => id + PROVIDER_SUFFIX
  }

  function KeyOf(kind: Kind, id: string): Key {
    Key(kind, NameOf(kind, id))
  }

  /** Distinct reservations never share an instruction, whatever characters their IDs hold. */
  lemma NamingIsInjective(kind: Kind, a: string, b: string)
    requires NameOf(kind, a) == NameOf(kind, b)
    ensures a == b
  {
    var x, y := NameOf(kind, a), NameOf(kind, b);
    assert a == x[..|a|] && b == y[..|b|];
    assert |a| == |b|;
  }

  function MessageOf(kind: Kind, rsv: Reservation): string {
    match kind
    case Requester => "Use " + rsv.target + " for " + rsv.cpu + " CPU / " + rsv.memory + " Memory"
    case Provider => "Hold " + rsv.cpu + " CPU / " + rsv.memory + " Memory for requester " + rsv.requester
  }

  function SpecOf(kind: Kind, rsv: Reservation): Spec {
    Spec(
      rsv.id,
      if kind.Provider? then rsv.requester else rsv.target,
      rsv.cpu,
      rsv.memory,
      MessageOf(kind, rsv),
      rsv.expiresAt)
  }

  /** The status an upsert leaves: unacknowledged, stamped and, for a requester, tied to the version
      of the reservation it came from. */
  function Cleared(kind: Kind, status: Status, observed: string, stamp: Time): Status {
    Status(false, Some(stamp), if kind.Requester? then observed else status.observed)
  }
}
