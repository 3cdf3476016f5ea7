/**
 * subscriber/subscriber.go: the identity part every subscriber embeds, and the
 * two error values subscribers report.
 */
module SubscriberBase {
  import opened Wrappers

  const ErrSerializeNotSupported: Error := Error("serialize is not supported")
  const ErrUnsupportedEvent: Error := Error("event is not supported by this subscriber")

  lemma SentinelsDistinct()
    ensures ErrSerializeNotSupported != ErrUnsupportedEvent
  {
  }

  /** The embeddable identity: a subscription id held in a single field. */
  class Identifiable {
    var id: string

    /** The zero value of the Go struct: the id is empty. */
    constructor ()
      ensures id == ""
    {
      id := "";
    }

    function ID(): string
      reads this
    {
      id
    }

    method SetID(x: string)
      modifies this
      ensures ID() == x
    {
      id := x;
    }
  }
}
