/**
 * subscriber/repo/subscriber_repo.go: a subscriber that saves the coverage
 * list of each GithubEvent it receives to a repo.
 */
module RepoSubscriber {
  import opened Wrappers
  import Goqa
  import opened Events
  import opened Collaborator
  import opened SubscriberBase

  class Repo {
    const ident: Identifiable
    /** The repo; each recorded call is the argument list of one `Save`. */
    const repo: Recorder<seq<Goqa.Coverage>>

    constructor (repo: Recorder<seq<Goqa.Coverage>>)
      ensures fresh(ident) && ident.id == "" && this.repo == repo
    {
      ident := new Identifiable();
      this.repo := repo;
    }

    function ID(): string
      reads ident
    {
      ident.ID()
    }

    method SetID(id: string)
      modifies ident
      ensures ID() == id
    {
      ident.SetID(id);
    }

    /** A GithubEvent is saved with exactly its coverage list, and Save's answer is returned; anything else is refused. */
    method Notify(event: Goqa.Event) returns (err: Option<Error>)
      modifies repo
      ensures GithubOf(event).None? ==> repo.calls == old(repo.calls) && err == Some(ErrUnsupportedEvent)
      ensures GithubOf(event).Some? ==>
                && repo.calls == old(repo.calls) + [GithubOf(event).value.coverage]
                && err == ReplyAt(repo.replies, |old(repo.calls)|)
    {
      var g := GithubOf(event);
      if g.None? {
        return Some(ErrUnsupportedEvent);
      }
      err := repo.Call(g.value.coverage);
    }
  }
}
