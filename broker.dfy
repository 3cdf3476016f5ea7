/**
 * broker/memory/broker_memory.go, run one call at a time: a list of
 * listeners, each standing for the channel `Listen` hands out, with the events
 * sent on it so far and whether it has been closed.
 */
module Broker {
  import opened Wrappers
  import opened Goqa

  /** The channel of one `Listen` call: the events sent on it, in order, and whether it is closed. */
  class Listener {
    var queue: seq<Event>
    var closed: bool

    constructor ()
      ensures queue == [] && !closed
    {
      queue := [];
      closed := false;
    }
  }

  class Memory {
    var listeners: seq<Listener>

    /** Each listener is registered once, and none on the list has been closed. */
    ghost predicate Valid()
      reads this, listeners
    {
      && (forall i, j :: 0 <= i < j < |listeners| ==> listeners[i] != listeners[j])
      && (forall i :: 0 <= i < |listeners| ==> !listeners[i].closed)
    }

    /** `New`: no listeners. */
    constructor ()
      ensures listeners == [] && Valid()
    {
      listeners := [];
    }

    method Listen() returns (c: Listener, err: Option<Error>)
      requires Valid()
      modifies this
      ensures fresh(c) && c.queue == [] && !c.closed
      ensures listeners == old(listeners) + [c]
      ensures err == None && Valid()
    {
      c := new Listener();
      listeners := listeners + [c];
      err := None;
    }

    /**
     * Every listener on the list receives the event once; the list itself is
     * not changed. The event joins the end of each queue: one of the orders
     * the unawaited sends allow, not one they guarantee.
     */
    method Publish(event: Event) returns (err: Option<Error>)
      requires Valid()
      modifies listeners
      ensures listeners == old(listeners) && Valid()
      ensures forall i :: 0 <= i < |listeners| ==>
                listeners[i].queue == old(listeners[i].queue) + [event]
                && listeners[i].closed == old(listeners[i].closed)
      ensures err == None
    {
      for i := 0 to |listeners|
        invariant forall j :: 0 <= j < i ==>
                    listeners[j].queue == old(listeners[j].queue) + [event]
        invariant forall j :: i <= j < |listeners| ==> listeners[j].queue == old(listeners[j].queue)
        invariant forall j :: 0 <= j < |listeners| ==> listeners[j].closed == old(listeners[j].closed)
      {
        var l := listeners[i];
        l.queue := l.queue + [event];
      }
      err := None;
    }

    /**
     * Every listener on the list is closed, with its queue kept, and the list is emptied.
     * Keeping the queue is the outcome where each pending send is received before the
     * close; a close that comes first panics, which is not modelled.
     */
    method Close() returns (err: Option<Error>)
      requires Valid()
      modifies this, listeners
      ensures listeners == [] && Valid()
      ensures forall i :: 0 <= i < |old(listeners)| ==>
                old(listeners)[i].closed && old(listeners)[i].queue == old(listeners[i].queue)
      ensures err == None
    {
      for i := 0 to |listeners|
        invariant listeners == old(listeners)
        invariant forall j :: 0 <= j < i ==> listeners[j].closed
        invariant forall j :: 0 <= j < |listeners| ==> listeners[j].queue == old(listeners[j].queue)
      {
        listeners[i].closed := true;
      }
      listeners := [];
      err := None;
    }
  }

  /** A Publish after Close reaches none of the listeners Close closed. */
  method CloseThenPublish(b: Memory, event: Event)
    requires b.Valid()
    modifies b, b.listeners
    ensures forall i :: 0 <= i < |old(b.listeners)| ==>
              old(b.listeners)[i].closed && old(b.listeners)[i].queue == old(b.listeners[i].queue)
  {
    var _ := b.Close();
    var _ := b.Publish(event);
  }
}
