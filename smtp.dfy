/**
 * emailer/smtp/emailer_smtp.go: the SMTP mailer. `Send` sends one mail per
 * recipient through `smtp.SendMail`, here a Recorder of the envelopes it is
 * handed, and stops at the first failure.
 */
module SmtpEmailer {
  import opened Wrappers
  import opened Collaborator

  /** The mailer's settings, as `New` stores them. */
  datatype Smtp = Smtp(host: string, usr: string, pass: string, from: string)

  /** `smtp.PlainAuth("", usr, pass, host)`. */
  datatype Auth = PlainAuth(identity: string, username: string, password: string, host: string)

  /** The arguments of one `smtp.SendMail` call. */
  datatype Envelope = Envelope(addr: string, auth: Auth, from: string, to: seq<string>, msg: string)

  function New(host: string, usr: string, pass: string, from: string): (s: Smtp)
    ensures s.host == host && s.usr == usr && s.pass == pass && s.from == from
  {
    Smtp(host, usr, pass, from)
  }

  function AuthOf(s: Smtp): Auth {
    PlainAuth("", s.usr, s.pass, s.host)
  }

  /** The lines written for one recipient: the two headers, a blank line and the message. */
  function Block(r: string, subject: string, message: string): (b: string)
    ensures "To: " + r + "\r\n" <= b && |b| >= 17 && b[|b| - 2..] == "\r\n"
  {
    "To: " + r + "\r\n" + "Subject: " + subject + "\r\n" + "\r\n" + message + "\r\n"
  }

  /** The blocks of the first `n` recipients, one after the other. */
  function Blocks(rs: seq<string>, n: nat, subject: string, message: string): string
    requires n <= |rs|
  {
    if n == 0 then "" else Blocks(rs, n - 1, subject, message) + Block(rs[n - 1], subject, message)
  }

  /**
   * The envelopes `Send` hands over, as the code is written: the i-th goes to
   * recipient i alone, from the configured sender, but its message is the
   * buffer after i + 1 blocks, since the buffer is never reset.
   */
  function Envelopes(s: Smtp, subject: string, message: string, rs: seq<string>): (es: seq<Envelope>)
    ensures |es| == |rs|
  {
    seq(|rs|, i requires 0 <= i < |rs| =>
      Envelope(s.host, AuthOf(s), s.from, [rs[i]], Blocks(rs, i + 1, subject, message)))
  }

  /** Each envelope `Send` hands over goes from the configured sender, through the configured host, to its one recipient. */
  lemma EnvelopeAddressesOneRecipient(s: Smtp, subject: string, message: string, rs: seq<string>, i: nat)
    requires i < |rs|
    ensures var e := Envelopes(s, subject, message, rs)[i];
            e.to == [rs[i]] && e.from == s.from && e.addr == s.host && e.auth == PlainAuth("", s.usr, s.pass, s.host)
  {
  }

  /** The envelopes with one block per message, as each recipient is meant to get it. */
  function SeparateEnvelopes(s: Smtp, subject: string, message: string, rs: seq<string>): (es: seq<Envelope>)
    ensures |es| == |rs|
  {
    seq(|rs|, i requires 0 <= i < |rs| =>
      Envelope(s.host, AuthOf(s), s.from, [rs[i]], Block(rs[i], subject, message)))
  }

  /** A block starts with the `To:` header naming its recipient, then the `Subject:` header. */
  lemma BlockHeaders(r: string, subject: string, message: string)
    ensures var b := Block(r, subject, message);
            && b[..4] == "To: " && b[4..4 + |r|] == r && b[4 + |r|..6 + |r|] == "\r\n"
            && b[6 + |r|..15 + |r|] == "Subject: " && b[15 + |r|..15 + |r| + |subject|] == subject
  {
    var b := Block(r, subject, message);
    assert b == "To: " + r + "\r\n" + "Subject: " + subject + "\r\n" + "\r\n" + message + "\r\n";
  }

  /** The buffer after several blocks starts with the first block. */
  lemma {:induction false} BlocksStartWithFirst(rs: seq<string>, n: nat, subject: string, message: string)
    requires 0 < n <= |rs|
    ensures Block(rs[0], subject, message) <= Blocks(rs, n, subject, message)
  {
    if n > 1 {
      BlocksStartWithFirst(rs, n - 1, subject, message);
    }
  }

  /**
   * As written, every mail after the first carries the blocks of all earlier
   * recipients before its own: it is longer than one block, and its first
   * `To:` header names the first recipient.
   */
  lemma AccumulatedMessages(s: Smtp, subject: string, message: string, rs: seq<string>, i: nat)
    requires 0 < i < |rs|
    ensures var m := Envelopes(s, subject, message, rs)[i].msg;
            && m == Blocks(rs, i, subject, message) + Block(rs[i], subject, message)
            && m != Block(rs[i], subject, message)
            && Block(rs[0], subject, message) <= m
  {
    BlocksStartWithFirst(rs, i, subject, message);
    assert |Block(rs[0], subject, message)| > 0;
  }

  /**
   * One round of `Send`'s loop: the recipient's block is written after the
   * earlier ones, and the buffer is sent to that recipient.
   */
  method SendOne(s: Smtp, sender: Recorder<Envelope>, subject: string, message: string, rs: seq<string>, i: nat, msg: string)
    returns (out: string, err: Option<Error>)
    requires i < |rs| && msg == Blocks(rs, i, subject, message)
    modifies sender
    ensures out == Blocks(rs, i + 1, subject, message)
    ensures sender.calls == old(sender.calls) + [Envelopes(s, subject, message, rs)[i]]
    ensures err == ReplyAt(sender.replies, |old(sender.calls)|)
  {
    out := msg + "To: " + rs[i] + "\r\n";
    out := out + "Subject: " + subject + "\r\n";
    out := out + "\r\n" + message + "\r\n";
    assert out == msg + Block(rs[i], subject, message);
    err := sender.Call(Envelope(s.host, AuthOf(s), s.from, [rs[i]], out));
  }

  /**
   * `Send`: the recipients are mailed one by one, in order, each on its own,
   * until a send fails; that error, or nil, is returned. No recipients means
   * no send at all.
   */
  method Send(s: Smtp, sender: Recorder<Envelope>, subject: string, message: string, rs: seq<string>)
    returns (err: Option<Error>)
    modifies sender
    ensures var start := |old(sender.calls)|;
            && sender.calls == old(sender.calls) + Envelopes(s, subject, message, rs)[..Attempts(sender.replies, start, |rs|)]
            && err == Outcome(sender.replies, start, |rs|)
  {
    var msg := "";
    ghost var start := |sender.calls|;
    ghost var sent := Envelopes(s, subject, message, rs);
    for i := 0 to |rs|
      invariant msg == Blocks(rs, i, subject, message)
      invariant sender.calls == old(sender.calls) + sent[..i]
      invariant forall k :: start <= k < start + i ==> ReplyAt(sender.replies, k) == None
    {
      msg, err := SendOne(s, sender, subject, message, rs, i, msg);
      assert sent[..i + 1] == sent[..i] + [sent[i]];
      if err != None {
        AfterSuccesses(sender.replies, start, |rs|, i);
        return err;
      }
    }
    AfterSuccesses(sender.replies, start, |rs|, |rs|);
    assert sent[..|rs|] == sent;
    return None;
  }

  /** `Send` with the buffer reset for each recipient, so each mail holds that recipient's block alone. */
  method SendSeparately(s: Smtp, sender: Recorder<Envelope>, subject: string, message: string, rs: seq<string>)
    returns (err: Option<Error>)
    modifies sender
    ensures var start := |old(sender.calls)|;
            && sender.calls == old(sender.calls) + SeparateEnvelopes(s, subject, message, rs)[..Attempts(sender.replies, start, |rs|)]
            && err == Outcome(sender.replies, start, |rs|)
  {
    var auth := AuthOf(s);
    ghost var start := |sender.calls|;
    ghost var sent := SeparateEnvelopes(s, subject, message, rs);
    for i := 0 to |rs|
      invariant sender.calls == old(sender.calls) + sent[..i]
      invariant forall k :: start <= k < start + i ==> ReplyAt(sender.replies, k) == None
    {
      var msg := "To: " + rs[i] + "\r\n" + "Subject: " + subject + "\r\n" + "\r\n" + message + "\r\n";
      assert sent[..i + 1] == sent[..i] + [Envelope(s.host, auth, s.from, [rs[i]], msg)];
      err := sender.Call(Envelope(s.host, auth, s.from, [rs[i]], msg));
      if err != None {
        AfterSuccesses(sender.replies, start, |rs|, i);
        return err;
      }
    }
    AfterSuccesses(sender.replies, start, |rs|, |rs|);
    assert sent[..|rs|] == sent;
    return None;
  }

  /**
   * With the reset, the mail to each recipient starts with a `To:` header
   * naming that recipient, and goes to that recipient alone.
   */
  lemma SeparateMailsAddressTheirRecipient(s: Smtp, subject: string, message: string, rs: seq<string>, i: nat)
    requires i < |rs|
    ensures var e := SeparateEnvelopes(s, subject, message, rs)[i];
            && e.to == [rs[i]] && e.from == s.from
            && e.msg[..4] == "To: " && e.msg[4..4 + |rs[i]|] == rs[i]
  {
    BlockHeaders(rs[i], subject, message);
  }
}
