/**
 * goqa.go: the event-name constants, the Coverage record and its text form,
 * the event values that travel through the broker, and the Subscriber
 * contract that the roster and the dispatch loop work against.
 */
module Goqa {
  import opened Wrappers
  import opened Text
  import SubscriberBase

  const EventGithub: string := "EVENT_GITHUB"
  const EventCoverage: string := "EVENT_COVERAGE"

  lemma EventNamesDistinct()
    ensures EventGithub != EventCoverage
  {
    assert EventGithub[7] != EventCoverage[7];
  }

  /** Coverage of one package at one time. */
  datatype Coverage = Coverage(pkg: string, percentage: int, time: string)

  /**
   * The percentage is documented as the nearest integer on a 0-100 scale; no
   * code enforces the range, so it is an assumption a caller may state, not an
   * invariant. The webhook truncates rather than rounds (see `Hook.ParseFixed`).
   */
  predicate DocumentedPercentage(c: Coverage) {
    0 <= c.percentage <= 100
  }

  /** `Coverage.String`: `[time] pkg = "pkg" %percentage`. */
  function CoverageString(c: Coverage): string {
    "[" + c.time + "] pkg = \"" + c.pkg + "\" %" + Itoa(c.percentage)
  }

  /** The percentage can be read back from the text after its last `%`. */
  lemma CoveragePercentageReadBack(c: Coverage)
    ensures var s := CoverageString(c);
            var i := LastIndex(s, '%');
            0 <= i && Atoi(s[i + 1..]) == Some(c.percentage)
  {
    var s := CoverageString(c);
    var pre := "[" + c.time + "] pkg = \"" + c.pkg + "\" ";
    var d := Itoa(c.percentage);
    assert s == pre + ['%'] + d;
    ItoaHasNoSeparators(c.percentage);
    ItoaRoundTrip(c.percentage);
    LastIndexBeforeFreeSuffix(pre, '%', d);
    assert s[|pre| + 1..] == d;
  }

  /** The time can be read back between the leading `[` and the first `]` when it holds no `]`. */
  lemma CoverageTimeReadBack(c: Coverage)
    requires ']' !in c.time
    ensures var s := CoverageString(c);
            var j := Index(s, ']');
            1 <= j && s[1..j] == c.time
  {
    var s := CoverageString(c);
    var rest := " pkg = \"" + c.pkg + "\" %" + Itoa(c.percentage);
    assert s == "[" + c.time + [']'] + rest;
    assert ']' !in "[" + c.time;
    IndexAfterFreePrefix("[" + c.time, ']', rest);
    assert s[1..1 + |c.time|] == c.time;
  }

  /** The event a GitHub workflow run produces, with its coverage lines. */
  datatype GithubEvent = GithubEvent(
    event: string,
    repository: string,
    commit: string,
    ref: string,
    head: string,
    workflow: string,
    coverage: seq<Coverage>)

  /**
   * An event value as the Go code can see it: the nil interface, a
   * GithubEvent held by value or by pointer, a CoverageEvent, or any other
   * implementation of the Event interface, known only by its name and text.
   */
  datatype Event =
    | Nil
    | Github(github: GithubEvent, byPointer: bool)
    | CoverageEvent(cov: Coverage)
    | Other(name: string, text: string)

  /**
   * The Subscriber interface as the roster and the dispatch loop use it: an
   * embedded identity, and a Notify that is recorded in `inbox` and answers
   * with this subscriber's fixed `failure` (nil when `None`).
   */
  class Subscriber {
    const ident: SubscriberBase.Identifiable
    const failure: Option<Error>
    var inbox: seq<Event>

    constructor (failure: Option<Error>)
      ensures fresh(ident) && ident.id == ""
      ensures this.failure == failure && inbox == []
    {
      ident := new SubscriberBase.Identifiable();
      this.failure := failure;
      inbox := [];
    }

    function ID(): string
      reads ident
    {
      ident.ID()
    }

    method SetID(id: string)
      modifies ident
      ensures ID() == id
    {
      ident.SetID(id);
    }

    method Notify(event: Event) returns (err: Option<Error>)
      modifies this
      ensures inbox == old(inbox) + [event]
      ensures err == failure
    {
      inbox := inbox + [event];
      err := failure;
    }
  }
}
