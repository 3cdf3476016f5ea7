/**
 * subscriber/cachew/subscriber_cachew.go: a subscriber that resets a coverage
 * cache with the coverage list of each GithubEvent it receives.
 */
module CachewSubscriber {
  import opened Wrappers
  import Goqa
  import opened Events
  import opened Collaborator
  import opened SubscriberBase

  class Cache {
    const ident: Identifiable
    /** The cache; each recorded call is the argument list of one `Reset`. */
    const cache: Recorder<seq<Goqa.Coverage>>

    constructor (cache: Recorder<seq<Goqa.Coverage>>)
      ensures fresh(ident) && ident.id == "" && this.cache == cache
    {
      ident := new Identifiable();
      this.cache := cache;
    }

    function ID(): string
      reads ident
    {
      ident.ID()
    }

    method SetID(id: string)
      modifies ident
      ensures ID() == id
    {
      ident.SetID(id);
    }

    /** A GithubEvent resets the cache with exactly its coverage list, and Reset's answer is returned; anything else is refused. */
    method Notify(event: Goqa.Event) returns (err: Option<Error>)
      modifies cache
      ensures GithubOf(event).None? ==> cache.calls == old(cache.calls) && err == Some(ErrUnsupportedEvent)
      ensures GithubOf(event).Some? ==>
                && cache.calls == old(cache.calls) + [GithubOf(event).value.coverage]
                && err == ReplyAt(cache.replies, |old(cache.calls)|)
    {
      var g := GithubOf(event);
      if g.None? {
        return Some(ErrUnsupportedEvent);
      }
      err := cache.Call(g.value.coverage);
    }
  }
}
