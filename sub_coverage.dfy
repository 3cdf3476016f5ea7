/**
 * subscriber/coverage/subscriber_coverage.go: a subscriber that turns a
 * GithubEvent into one CoverageEvent per coverage entry and publishes them to
 * a broker, stopping at the first failure.
 */
module CoverageSubscriber {
  import opened Wrappers
  import Goqa
  import opened Events
  import opened Collaborator
  import opened SubscriberBase

  /** The events published for a coverage list: one CoverageEvent per entry, in order, fields copied. */
  function AsEvents(cs: seq<Goqa.Coverage>): (r: seq<Goqa.Event>)
    ensures |r| == |cs|
    ensures forall i :: 0 <= i < |cs| ==> r[i] == Goqa.CoverageEvent(cs[i])
  {
    seq(|cs|, i requires 0 <= i < |cs| => Goqa.CoverageEvent(Goqa.Coverage(cs[i].pkg, cs[i].percentage, cs[i].time)))
  }

  /** Every event the subscriber publishes is named `EventCoverage`. */
  lemma PublishedAreCoverageEvents(cs: seq<Goqa.Coverage>)
    ensures forall i :: 0 <= i < |cs| ==> Name(AsEvents(cs)[i]) == Goqa.EventCoverage
  {
  }

  class Coverage {
    const ident: Identifiable
    /** The broker the CoverageEvents go to; its replies are its `Publish` results. */
    const broker: Recorder<Goqa.Event>

    constructor (broker: Recorder<Goqa.Event>)
      ensures fresh(ident) && ident.id == "" && this.broker == broker
    {
      ident := new Identifiable();
      this.broker := broker;
    }

    function ID(): string
      reads ident
    {
      ident.ID()
    }

    method SetID(id: string)
      modifies ident
      ensures ID() == id
    {
      ident.SetID(id);
    }

    /**
     * A non-Github event is refused and nothing is published. For a
     * GithubEvent (by value or by pointer alike) the entries are published in
     * order until one fails; that error, or nil, is returned.
     */
    method Notify(event: Goqa.Event) returns (err: Option<Error>)
      modifies broker
      ensures GithubOf(event).None? ==> broker.calls == old(broker.calls) && err == Some(ErrUnsupportedEvent)
      ensures GithubOf(event).Some? ==>
                var cs := GithubOf(event).value.coverage;
                var start := |old(broker.calls)|;
                && broker.calls == old(broker.calls) + AsEvents(cs)[..Attempts(broker.replies, start, |cs|)]
                && err == Outcome(broker.replies, start, |cs|)
    {
      var g := GithubOf(event);
      if g.None? {
        return Some(ErrUnsupportedEvent);
      }
      var cs := g.value.coverage;
      ghost var start := |broker.calls|;
      ghost var published := AsEvents(cs);
      for i := 0 to |cs|
        invariant broker.calls == old(broker.calls) + published[..i]
        invariant forall k :: start <= k < start + i ==> ReplyAt(broker.replies, k) == None
      {
        var ev := Goqa.CoverageEvent(Goqa.Coverage(cs[i].pkg, cs[i].percentage, cs[i].time));
        assert published[..i + 1] == published[..i] + [ev];
        err := broker.Call(ev);
        if err != None {
          AfterSuccesses(broker.replies, start, |cs|, i);
          return err;
        }
      }
      AfterSuccesses(broker.replies, start, |cs|, |cs|);
      assert published[..|cs|] == published;
      return None;
    }
  }
}
