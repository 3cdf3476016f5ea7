/**
 * event.go: `Publish`, which notifies each subscriber in turn and logs the
 * failures, and one round of the loop in `Attach`, which takes the next event
 * off the broker's channel, looks its subscribers up by name and publishes to
 * them.
 */
module Dispatch {
  import opened Wrappers
  import opened Goqa
  import opened Events
  import Roster
  import Broker

  /** `n` copies of `e`. */
  function Repeat(e: Event, n: nat): seq<Event> {
    if n == 0 then [] else Repeat(e, n - 1) + [e]
  }

  /** How often `s` is listed among the first `n` subscribers. */
  function Count(subs: seq<Subscriber>, n: nat, s: Subscriber): nat
    requires n <= |subs|
  {
    if n == 0 then 0 else Count(subs, n - 1, s) + (if subs[n - 1] == s then 1 else 0)
  }

  /** `Count` is the multiplicity of `s` in the first `n` subscribers. */
  lemma {:induction false} CountIsMultiplicity(subs: seq<Subscriber>, n: nat, s: Subscriber)
    requires n <= |subs|
    ensures Count(subs, n, s) == multiset(subs[..n])[s]
  {
    if n > 0 {
      CountIsMultiplicity(subs, n - 1, s);
      assert subs[..n] == subs[..n - 1] + [subs[n - 1]];
    }
  }

  /** The position of the first subscriber whose Notify fails, or the length when none does. */
  function FirstFailure(subs: seq<Subscriber>): (k: nat)
    ensures k <= |subs|
  {
    if subs == [] then 0
    else if subs[0].failure != None then 0
    else 1 + FirstFailure(subs[1..])
  }

  /** `FirstFailure` is the first failing position: all before it succeed and it fails, if it is a position at all. */
  lemma {:induction false} FirstFailureIsFirst(subs: seq<Subscriber>, k: nat)
    requires k <= |subs|
    requires forall j :: 0 <= j < k ==> subs[j].failure == None
    requires k < |subs| ==> subs[k].failure != None
    ensures FirstFailure(subs) == k
  {
    if k > 0 {
      FirstFailureIsFirst(subs[1..], k - 1);
    }
  }

  /** The positions among the first `n` whose Notify fails. */
  function FailedAmong(subs: seq<Subscriber>, n: nat): seq<nat>
    requires n <= |subs|
  {
    if n == 0 then []
    else FailedAmong(subs, n - 1) + (if subs[n - 1].failure != None then [n - 1] else [])
  }

  /** `FailedAmong` lists exactly the failing positions below `n`, each once, in increasing order. */
  lemma {:induction false} FailedAmongExactly(subs: seq<Subscriber>, n: nat)
    requires n <= |subs|
    ensures var r := FailedAmong(subs, n);
            && (forall i :: 0 <= i < |r| ==> r[i] < n && subs[r[i]].failure != None)
            && (forall i, j :: 0 <= i < j < |r| ==> r[i] < r[j])
            && (forall k :: 0 <= k < n && subs[k].failure != None ==> k in r)
  {
    if n > 0 {
      FailedAmongExactly(subs, n - 1);
    }
  }

  /**
   * A failing Notify makes `Publish` log the event's name, which for a nil
   * event is a nil dereference: the loop then stops right after that
   * subscriber. Otherwise every subscriber is notified.
   */
  function Reached(event: Event, subs: seq<Subscriber>): (n: nat)
    ensures n <= |subs|
  {
    if event.Nil? && FirstFailure(subs) < |subs| then FirstFailure(subs) + 1 else |subs|
  }

  /** After the first `n` notifications, each inbox holds what it held `before`, then one copy of the event per listing. */
  ghost predicate Delivered(event: Event, subs: seq<Subscriber>, n: nat, before: map<Subscriber, seq<Event>>)
    requires n <= |subs|
    reads set s | s in subs
  {
    forall s :: s in subs ==> s in before && s.inbox == before[s] + Repeat(event, Count(subs, n, s))
  }

  /**
   * One round of `Publish`'s loop: `subs[i]` is notified and, when that
   * fails, the position is logged, or for a nil event the loop stops.
   */
  method PublishStep(event: Event, subs: seq<Subscriber>, i: nat, failed: seq<nat>, ghost before: map<Subscriber, seq<Event>>)
    returns (logged: seq<nat>, stop: bool)
    requires i < |subs|
    requires Delivered(event, subs, i, before)
    requires failed == FailedAmong(subs, i)
    requires event.Nil? ==> forall j :: 0 <= j < i ==> subs[j].failure == None
    modifies subs[i]
    ensures Delivered(event, subs, i + 1, before)
    ensures stop <==> event.Nil? && subs[i].failure != None
    ensures stop ==> FirstFailure(subs) == i
    ensures !stop ==> logged == FailedAmong(subs, i + 1)
    ensures !stop && event.Nil? ==> forall j :: 0 <= j < i + 1 ==> subs[j].failure == None
  {
    var err := subs[i].Notify(event);
    if err != None && event.Nil? {
      FirstFailureIsFirst(subs, i);
      return [], true;
    }
    logged := failed + if err != None then [i] else [];
    stop := false;
  }

  /**
   * `Publish`: every subscriber receives the event once per time it is listed,
   * in list order, and a failure does not stop the ones after it. `failed` are
   * the positions whose failure is logged; `crashed` is the nil dereference;
   * `notified` records the Notify calls in the order they are made.
   */
  method Publish(event: Event, subs: seq<Subscriber>) returns (failed: seq<nat>, crashed: bool, ghost notified: seq<Subscriber>)
    modifies set s | s in subs
    ensures notified == subs[..Reached(event, subs)]
    ensures crashed <==> event.Nil? && FirstFailure(subs) < |subs|
    ensures failed == if crashed then [] else FailedAmong(subs, |subs|)
    ensures forall s :: s in subs ==> s.inbox == old(s.inbox) + Repeat(event, Count(subs, Reached(event, subs), s))
  {
    ghost var before := map s | s in subs :: s.inbox;
    failed := [];
    notified := [];
    var i := 0;
    while i < |subs|
      invariant i <= |subs|
      invariant notified == subs[..i]
      invariant event.Nil? ==> forall j :: 0 <= j < i ==> subs[j].failure == None
      invariant failed == FailedAmong(subs, i)
      invariant Delivered(event, subs, i, before)
    {
      var stop;
      failed, stop := PublishStep(event, subs, i, failed, before);
      notified := notified + [subs[i]];
      assert notified == subs[..i + 1];
      if stop {
        assert Reached(event, subs) == i + 1;
        return [], true, notified;
      }
      i := i + 1;
    }
    if event.Nil? {
      FirstFailureIsFirst(subs, |subs|);
    }
    assert Reached(event, subs) == |subs|;
    return failed, false, notified;
  }

  /**
   * What `Attach` does with one event once the lookup by name has answered:
   * publish to the subscribers found, or skip the event when the lookup failed.
   */
  method Deliver(event: Event, subs: seq<Subscriber>, lookup: Option<Error>) returns (skipped: bool, failed: seq<nat>)
    requires !event.Nil?
    modifies set s | s in subs
    ensures skipped <==> lookup != None
    ensures skipped ==> failed == [] && forall s :: s in subs ==> s.inbox == old(s.inbox)
    ensures !skipped ==> failed == FailedAmong(subs, |subs|)
    ensures !skipped ==> forall s :: s in subs ==> s.inbox == old(s.inbox) + Repeat(event, Count(subs, |subs|, s))
  {
    if lookup != None {
      return true, [];
    }
    var crashed;
    ghost var notified;
    failed, crashed, notified := Publish(event, subs);
    skipped := false;
  }

  /** The subscriptions a lookup by `name` finds: none for an unknown name. */
  function Lookup(reg: Roster.Registry, name: string): map<string, Subscriber> {
    if name in reg then reg[name] else map[]
  }

  /**
   * `subs` lists the subscribers of `m` in the order `order` of their
   * subscription ids: every id exactly once, so one element per subscription.
   */
  ghost predicate ListedIn(subs: seq<Subscriber>, m: map<string, Subscriber>, order: seq<string>) {
    && |order| == |subs| == |m|
    && (forall i :: 0 <= i < |order| ==> order[i] in m && subs[i] == m[order[i]])
    && (forall i, j :: 0 <= i < j < |order| ==> order[i] != order[j])
    && (forall k :: k in m ==> k in order)
  }

  /** `subs` lists the subscribers of `m`, one element per subscription, in an order left open. */
  ghost predicate Enumerates(subs: seq<Subscriber>, m: map<string, Subscriber>) {
    exists order :: ListedIn(subs, m, order)
  }

  /** A listing at position `i` adds one to the count of `s` from `i` on. */
  lemma {:induction false} CountSeesPosition(subs: seq<Subscriber>, n: nat, s: Subscriber, i: nat)
    requires i < n <= |subs| && subs[i] == s
    ensures Count(subs, n, s) >= 1 + Count(subs, i, s)
  {
    if n > i + 1 {
      CountSeesPosition(subs, n - 1, s, i);
    }
  }

  /**
   * A subscriber that holds two subscriptions under a name is listed, and so
   * notified, at least twice: the listing keeps one element per subscription.
   */
  lemma SubscribedTwiceListedTwice(subs: seq<Subscriber>, m: map<string, Subscriber>, k1: string, k2: string)
    requires Enumerates(subs, m)
    requires k1 in m && k2 in m && k1 != k2 && m[k1] == m[k2]
    ensures Count(subs, |subs|, m[k1]) >= 2
  {
    var order :| ListedIn(subs, m, order);
    assert k1 in order && k2 in order;
    var i :| 0 <= i < |order| && order[i] == k1;
    var j :| 0 <= j < |order| && order[j] == k2;
    TwoPositions(subs, m[k1], i, j);
  }

  /** Two positions listing `s` give it a count of at least two. */
  lemma TwoPositions(subs: seq<Subscriber>, s: Subscriber, i: nat, j: nat)
    requires i < |subs| && j < |subs| && i != j && subs[i] == s && subs[j] == s
    ensures Count(subs, |subs|, s) >= 2
  {
    var lo, hi := if i < j then i else j, if i < j then j else i;
    CountSeesPosition(subs, |subs|, s, hi);
    CountSeesPosition(subs, hi, s, lo);
  }

  /** `Attach`'s call to `Subscribers`; a nil answer spreads into no subscribers at all. */
  method SubscribersOf(r: Roster.Memory, name: string) returns (subs: seq<Subscriber>, err: Option<Error>)
    ensures Enumerates(subs, Lookup(Roster.Entries(r.subs), name))
    ensures forall s :: s in subs ==> s in Roster.Subscribed(Roster.Entries(r.subs))
    ensures err == None
  {
    var found;
    ghost var order;
    found, order, err := r.Subscribers(name);
    subs := if found.Some? then found.value else [];
    ghost var reg := Roster.Entries(r.subs);
    if found.None? {
      assert Lookup(reg, name) == map[];
    }
    assert ListedIn(subs, Lookup(reg, name), order);
    forall i | 0 <= i < |subs|
      ensures subs[i] in Roster.Subscribed(reg)
    {
      assert subs[i] == reg[name][order[i]];
    }
  }

  /**
   * One round of `Attach`'s loop over the channel `c`. When the channel is
   * closed and drained the loop ends and the broker is closed. Otherwise the
   * next event is taken off the channel, the roster is asked for the
   * subscribers under the event's name, and exactly those are notified.
   */
  method AttachStep(c: Broker.Listener, b: Broker.Memory, r: Roster.Memory)
    returns (ended: bool, delivered: seq<Subscriber>, failed: seq<nat>)
    requires c.queue != [] || c.closed
    requires c.queue != [] ==> !c.queue[0].Nil?
    requires b.Valid()
    modifies c, b, b.listeners, Roster.Subscribed(Roster.Entries(r.subs))
    ensures ended <==> old(c.queue) == []
    ensures ended ==> b.listeners == [] && delivered == []
    ensures ended ==> c.queue == [] && c.closed
    ensures ended ==> forall i :: 0 <= i < |old(b.listeners)| ==>
              old(b.listeners)[i].closed && old(b.listeners)[i].queue == old(b.listeners[i].queue)
    ensures !ended ==> b.listeners == old(b.listeners) && c.closed == old(c.closed)
    ensures !ended ==> forall i :: 0 <= i < |b.listeners| && b.listeners[i] != c ==>
              b.listeners[i].queue == old(b.listeners[i].queue) && b.listeners[i].closed == old(b.listeners[i].closed)
    ensures !ended ==> c.queue == old(c.queue[1..])
    ensures !ended ==> Enumerates(delivered, Lookup(Roster.Entries(r.subs), Name(old(c.queue[0]))))
    ensures !ended ==> failed == FailedAmong(delivered, |delivered|)
    ensures !ended ==> forall s :: s in delivered ==>
              s.inbox == old(s.inbox) + Repeat(old(c.queue[0]), Count(delivered, |delivered|, s))
    ensures forall s :: s in Roster.Subscribed(Roster.Entries(r.subs)) && s !in delivered ==> s.inbox == old(s.inbox)
  {
    if c.queue == [] {
      var _ := b.Close();
      return true, [], [];
    }
    delivered, failed := DeliverNext(c, r);
    ended := false;
  }

  /**
   * The delivering round of `Attach`: the next event is taken off `c` and
   * handed to exactly the subscribers under its name. Only `c`'s queue and
   * those subscribers' inboxes change.
   */
  method DeliverNext(c: Broker.Listener, r: Roster.Memory) returns (delivered: seq<Subscriber>, failed: seq<nat>)
    requires c.queue != [] && !c.queue[0].Nil?
    modifies c, Roster.Subscribed(Roster.Entries(r.subs))
    ensures c.queue == old(c.queue[1..]) && c.closed == old(c.closed)
    ensures Enumerates(delivered, Lookup(Roster.Entries(r.subs), Name(old(c.queue[0]))))
    ensures failed == FailedAmong(delivered, |delivered|)
    ensures forall s :: s in delivered ==>
              s.inbox == old(s.inbox) + Repeat(old(c.queue[0]), Count(delivered, |delivered|, s))
    ensures forall s :: s in Roster.Subscribed(Roster.Entries(r.subs)) && s !in delivered ==> s.inbox == old(s.inbox)
  {
    var e := c.queue[0];
    c.queue := c.queue[1..];
    var err;
    delivered, err := SubscribersOf(r, Name(e));
    var skipped;
    skipped, failed := Deliver(e, delivered, err);
  }

  /**
   * A subscriber registered only under `EventGithub` is never found for a
   * GithubEvent, since a GithubEvent is named `EventCoverage`.
   */
  lemma GithubSubscribersNeverMatched(reg: Roster.Registry, s: Subscriber, g: GithubEvent, byPointer: bool)
    requires forall n, id :: n in reg && id in reg[n] && reg[n][id] == s ==> n == EventGithub
    ensures s !in Lookup(reg, Name(Github(g, byPointer))).Values
  {
    GithubNameIsCoverage(g, byPointer);
  }
}
