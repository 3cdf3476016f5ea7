/**
 * events.go: the `Name` and `String` methods of GithubEvent and
 * CoverageEvent, and the same two methods for any other Event value.
 */
module Events {
  import opened Wrappers
  import opened Text
  import opened Goqa

  /**
   * `Event.Name()`. A nil event has no name: calling it in Go dereferences
   * nil. Only an event of a foreign kind can carry the Github name.
   */
  function Name(e: Event): (n: string)
    requires !e.Nil?
    ensures n == EventGithub ==> e.Other?
  {
    EventNamesDistinct();
    match e
    case Github(_, _) => EventCoverage
    case CoverageEvent(_) => EventCoverage
    case Other(name, _) => name
  }

  /** `Event.String()`. A nil event has no text either; a Github event's text opens with its header. */
  function EventText(e: Event): (t: string)
    requires !e.Nil?
    ensures e.Github? ==> Header(e.github) <= t
  {
    match e
    case Github(g, _) => GithubText(g)
    case CoverageEvent(c) => CoverageEventText(c)
    case Other(_, text) => text
  }

  /**
   * The fixed head of `GithubEvent.String()`. The Go literals are raw strings,
   * so each separator is the two characters backslash and `n`, not a newline.
   */
  function Header(g: GithubEvent): string {
    "Event = \"" + g.event + "\"\\n"
    + "Repository = \"" + g.repository + "\"\\n"
    + "Commit = \"" + g.commit + "\"\\n"
    + "Ref = \"" + g.ref + "\"\\n"
    + "Head = \"" + g.head + "\"\\n"
    + "Workflow = \"" + g.workflow + "\"\\n"
    + "Coverage =\\n"
  }

  /** Each string followed by a real newline, in order. */
  function Joined(lines: seq<string>): string {
    if lines == [] then "" else Joined(lines[..|lines| - 1]) + lines[|lines| - 1] + "\n"
  }

  /** One `Coverage.String()` per entry, in list order. */
  function Rendered(cs: seq<Coverage>): (r: seq<string>)
    ensures |r| == |cs| && forall i :: 0 <= i < |cs| ==> r[i] == CoverageString(cs[i])
  {
    seq(|cs|, i requires 0 <= i < |cs| => CoverageString(cs[i]))
  }

  function GithubText(g: GithubEvent): string {
    Header(g) + Joined(Rendered(g.coverage))
  }

  /** `CoverageEvent.String()`: the percentage slot is filled with the package name. */
  function CoverageEventText(c: Coverage): string {
    "pkg: " + c.pkg + "; percentage: " + c.pkg + "; time: " + c.time
  }

  /** `GithubEvent.String()`: the header, then one line per coverage entry, built in a loop. */
  method GithubEventString(g: GithubEvent) returns (s: string)
    ensures s == GithubText(g)
    ensures Header(g) <= s
    ensures g.coverage == [] ==> s == Header(g)
  {
    ghost var lines := Rendered(g.coverage);
    var body := "";
    for i := 0 to |g.coverage|
      invariant body == Joined(lines[..i])
    {
      var line := CoverageString(g.coverage[i]);
      JoinedStep(lines, i);
      body := body + line + "\n";
    }
    assert lines[..|lines|] == lines;
    s := Header(g) + body;
  }

  /**
   * The type switch the coverage, cache and repo subscribers share: the
   * GithubEvent an event carries, whether by value or by pointer.
   */
  function GithubOf(e: Event): (r: Option<GithubEvent>)
    ensures r.Some? <==> e.Github?
    ensures r.Some? ==> r.value == e.github
  {
    if e.Github? then Some(e.github) else None
  }

  /** A GithubEvent is never named EventGithub, whatever its fields: subscriptions under that name are never matched by name. */
  lemma GithubNameIsCoverage(g: GithubEvent, byPointer: bool)
    ensures Name(Github(g, byPointer)) == EventCoverage
    ensures Name(Github(g, byPointer)) != EventGithub
  {
    EventNamesDistinct();
  }

  lemma CoverageEventNameIsCoverage(c: Coverage)
    ensures Name(CoverageEvent(c)) == EventCoverage
  {
  }

  /** The text of a CoverageEvent does not depend on its percentage. */
  lemma CoverageEventTextIgnoresPercentage(c: Coverage, p: int)
    ensures CoverageEventText(c) == CoverageEventText(c.(percentage := p))
  {
  }

  /** The text the `percentage:` label calls for: the decimal percentage in its slot. */
  function CoverageEventTextIntended(c: Coverage): string {
    "pkg: " + c.pkg + "; percentage: " + Itoa(c.percentage) + "; time: " + c.time
  }

  /** The percentage can be read back from the intended text, up to the `;` after its label. */
  lemma CoverageEventTextIntendedReadsPercentage(c: Coverage)
    ensures var s := CoverageEventTextIntended(c);
            var k := |"pkg: " + c.pkg + "; percentage: "|;
            var j := Index(s[k..], ';');
            0 <= j && Atoi(s[k..][..j]) == Some(c.percentage)
  {
    var s := CoverageEventTextIntended(c);
    var pre := "pkg: " + c.pkg + "; percentage: ";
    var d := Itoa(c.percentage);
    var post := " time: " + c.time;
    assert s == pre + (d + [';'] + post);
    assert s[|pre|..] == d + [';'] + post;
    ItoaHasNoSeparators(c.percentage);
    IndexAfterFreePrefix(d, ';', post);
    assert (d + [';'] + post)[..|d|] == d;
    ItoaRoundTrip(c.percentage);
  }

  lemma JoinedStep(lines: seq<string>, i: nat)
    requires i < |lines|
    ensures Joined(lines[..i + 1]) == Joined(lines[..i]) + lines[i] + "\n"
  {
    assert lines[..i + 1][..i] == lines[..i];
  }

  lemma {:induction false} JoinedAppend(a: seq<string>, b: seq<string>)
    ensures Joined(a + b) == Joined(a) + Joined(b)
  {
    if b == [] {
      assert a + b == a;
    } else {
      assert (a + b)[..|a + b| - 1] == a + b[..|b| - 1];
      JoinedAppend(a, b[..|b| - 1]);
    }
  }

  /** Entry `i` appears as its own line, after the lines of the entries before it. */
  lemma BodyEntry(cs: seq<Coverage>, i: nat)
    requires i < |cs|
    ensures Joined(Rendered(cs))
         == Joined(Rendered(cs[..i])) + CoverageString(cs[i]) + "\n" + Joined(Rendered(cs[i + 1..]))
  {
    var ls, before, after := Rendered(cs), Rendered(cs[..i]), Rendered(cs[i + 1..]);
    var line := ls[i];
    assert ls == before + [line] + after;
    JoinedAppend(before + [line], after);
    JoinedAppend(before, [line]);
    assert [line][..0] == [];
  }

  /** Lines without a newline of their own give exactly one newline each. */
  lemma {:induction false} JoinedNewlineCount(lines: seq<string>)
    requires forall i :: 0 <= i < |lines| ==> '\n' !in lines[i]
    ensures multiset(Joined(lines))['\n'] == |lines|
  {
    if lines != [] {
      var init, last := lines[..|lines| - 1], lines[|lines| - 1];
      JoinedNewlineCount(init);
      assert multiset(last)['\n'] == 0;
      assert Joined(lines) == Joined(init) + last + "\n";
    }
  }

  predicate NewlineFree(c: Coverage) {
    '\n' !in c.pkg && '\n' !in c.time
  }

  lemma CoverageStringNewlineFree(c: Coverage)
    requires NewlineFree(c)
    ensures '\n' !in CoverageString(c)
  {
    var d := Itoa(c.percentage);
    assert '\n' !in d by {
      if c.percentage >= 0 {
        assert AllDigits(d);
      } else {
        assert d == "-" + NatToDecimal(-c.percentage);
        assert AllDigits(NatToDecimal(-c.percentage));
      }
    }
  }

  /** When no entry holds a newline, the body of the text has exactly one real newline per entry. */
  lemma BodyNewlineCount(g: GithubEvent)
    requires forall i :: 0 <= i < |g.coverage| ==> NewlineFree(g.coverage[i])
    ensures multiset(Joined(Rendered(g.coverage)))['\n'] == |g.coverage|
  {
    var ls := Rendered(g.coverage);
    forall i | 0 <= i < |ls|
      ensures '\n' !in ls[i]
    {
      CoverageStringNewlineFree(g.coverage[i]);
    }
    JoinedNewlineCount(ls);
  }

  /** With newline-free fields the header holds no real newline at all. */
  lemma HeaderHasNoNewline(g: GithubEvent)
    requires '\n' !in g.event && '\n' !in g.repository && '\n' !in g.commit
    requires '\n' !in g.ref && '\n' !in g.head && '\n' !in g.workflow
    ensures '\n' !in Header(g)
  {
  }
}
