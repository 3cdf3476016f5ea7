/**
 * subscriber/email/subscriber_email.go: a subscriber that mails every event it
 * receives, whatever its kind, to one address.
 */
module EmailSubscriber {
  import opened Wrappers
  import Goqa
  import opened Events
  import opened Collaborator
  import opened SubscriberBase

  const ErrEmailEmpty: Error := Error("email cannot be empty")

  /** The arguments of one `Send` call on the mailer. */
  datatype Mail = Mail(subject: string, message: string, recipients: seq<string>)

  class Email {
    const ident: Identifiable
    const mailer: Recorder<Mail>
    var email: string

    constructor (mailer: Recorder<Mail>, email: string)
      ensures fresh(ident) && ident.id == "" && this.mailer == mailer && this.email == email
    {
      ident := new Identifiable();
      this.mailer := mailer;
      this.email := email;
    }

    function ID(): string
      reads ident
    {
      ident.ID()
    }

    method SetID(id: string)
      modifies ident
      ensures ID() == id
    {
      ident.SetID(id);
    }

    /**
     * An empty address is refused without mailing. Otherwise one mail goes
     * out, with the event's name as subject and its text as message, to this
     * one address, and the mailer's answer is returned. Reading the name of a
     * nil event is a nil dereference, hence the precondition.
     */
    method Notify(event: Goqa.Event) returns (err: Option<Error>)
      requires email != "" ==> !event.Nil?
      modifies mailer
      ensures email == "" ==> mailer.calls == old(mailer.calls) && err == Some(ErrEmailEmpty)
      ensures email != "" ==>
                && mailer.calls == old(mailer.calls) + [Mail(Name(event), EventText(event), [email])]
                && err == ReplyAt(mailer.replies, |old(mailer.calls)|)
    {
      if email == "" {
        return Some(ErrEmailEmpty);
      }
      err := mailer.Call(Mail(Name(event), EventText(event), [email]));
    }
  }

  lemma EmailEmptyIsItsOwnError()
    ensures ErrEmailEmpty != ErrUnsupportedEvent && ErrEmailEmpty != ErrSerializeNotSupported
  {
  }
}
