/**
 * roster/memory/roster_memory.go: the in-memory subscription registry. It maps
 * an event name to the subscriptions under that name, each keyed by an id of
 * the form `name-counter`, and keeps the counter that mints those ids.
 */
module Roster {
  import opened Wrappers
  import opened Text
  import opened Goqa

  /** event name => (subscription id => subscriber) */
  type Registry = map<string, map<string, Subscriber>>

  /** A nil registry reads as an empty one. */
  function Entries(subs: Option<Registry>): Registry {
    if subs.Some? then subs.value else map[]
  }

  /** Every subscriber the registry holds, under any name. */
  ghost function Subscribed(subs: Registry): set<Subscriber> {
    set name, id | name in subs && id in subs[name] :: subs[name][id]
  }

  /**
   * The id `Subscribe` gives to the subscription it makes with counter value
   * `n`: the name, a `-`, then the counter, which holds no `-` of its own.
   */
  function Mint(name: string, n: nat): (id: string)
    ensures |id| > |name| && id[..|name|] == name && id[|name|] == '-' && '-' !in id[|name| + 1..]
  {
    ItoaHasNoSeparators(n);
    var id := name + "-" + Itoa(n);
    assert id[|name| + 1..] == Itoa(n);
    id
  }

  /** The name `Unsubscribe` reads from an id: everything before its last `-`. */
  function NameOf(id: string): (r: Option<string>)
    ensures r.Some? <==> '-' in id
    ensures r.Some? ==> |r.value| < |id| && r.value == id[..|r.value|] && id[|r.value|] == '-'
    ensures r.Some? ==> '-' !in id[|r.value| + 1..]
  {
    var i := LastIndex(id, '-');
    if i == -1 then None else Some(id[..i])
  }

  /** The counter an id carries: the decimal number after its last `-`. */
  ghost function CounterOf(id: string): Option<int> {
    var i := LastIndex(id, '-');
    if i == -1 then None else Atoi(id[i + 1..])
  }

  /** A minted id gives back both its name and its counter. */
  lemma MintParse(name: string, n: nat)
    ensures NameOf(Mint(name, n)) == Some(name)
    ensures CounterOf(Mint(name, n)) == Some(n)
  {
    var d := Itoa(n);
    assert Mint(name, n) == name + ['-'] + d;
    ItoaHasNoSeparators(n);
    LastIndexBeforeFreeSuffix(name, '-', d);
    ItoaRoundTrip(n);
    assert Mint(name, n)[..|name|] == name;
    assert Mint(name, n)[|name| + 1..] == d;
  }

  /** Two ids are the same exactly when their names and counters are. */
  lemma MintInjective(a: string, m: nat, b: string, n: nat)
    ensures Mint(a, m) == Mint(b, n) <==> a == b && m == n
  {
    if Mint(a, m) == Mint(b, n) {
      MintParse(a, m);
      MintParse(b, n);
    }
  }

  ghost predicate MintedUpTo(name: string, id: string, counter: nat) {
    exists k: nat :: 1 <= k <= counter && id == Mint(name, k)
  }

  /** Every subscription id under a name was minted for that name with a counter value already used. */
  ghost predicate WellFormed(subs: Registry, counter: nat) {
    forall name, id :: name in subs && id in subs[name] ==> MintedUpTo(name, id, counter)
  }

  /** The next id is held by no subscription, under any name. */
  lemma MintedIdFresh(subs: Registry, counter: nat, name: string)
    requires WellFormed(subs, counter)
    ensures forall n, id :: n in subs && id in subs[n] ==> id != Mint(name, counter + 1)
  {
    forall n, id | n in subs && id in subs[n]
      ensures id != Mint(name, counter + 1)
    {
      var k: nat :| 1 <= k <= counter && id == Mint(n, k);
      MintInjective(n, k, name, counter + 1);
    }
  }

  /** The registry after `subs[name][id] = sub`, creating the map for `name` when it is missing. */
  function Added(subs: Registry, name: string, id: string, sub: Subscriber): Registry {
    var before: map<string, Subscriber> := if name in subs then subs[name] else map[];
    subs[name := before[id := sub]]
  }

  /** `Added` holds the new entry, keeps every other entry and adds nothing else. */
  lemma AddedEntries(subs: Registry, name: string, id: string, sub: Subscriber)
    ensures var r := Added(subs, name, id, sub);
            && name in r && id in r[name] && r[name][id] == sub
            && r.Keys == subs.Keys + {name}
            && (forall n, i :: n in subs && i in subs[n] && (n, i) != (name, id) ==> i in r[n] && r[n][i] == subs[n][i])
            && (forall n, i :: n in r && i in r[n] ==> (n, i) == (name, id) || (n in subs && i in subs[n]))
  {
  }

  /** The registry after `Unsubscribe(id)`: the entry `id` under the name before its last `-`, if any, is deleted. */
  function Removed(subs: Registry, id: string): Registry {
    match NameOf(id)
    case None => subs
    case Some(name) =>
      if name in subs && id in subs[name] then subs[name := subs[name] - {id}] else subs
  }

  /** `Removed` deletes the id from the map of the name read from it, when that name has one. */
  lemma RemovedByName(subs: Registry, id: string, name: string)
    requires NameOf(id) == Some(name) && name in subs
    ensures Removed(subs, id) == if id in subs[name] then subs[name := subs[name] - {id}] else subs
  {
  }

  /** `Removed` keeps every name, even one whose map it empties, and deletes at most the one entry. */
  lemma RemovedEntries(subs: Registry, id: string)
    ensures var r := Removed(subs, id);
            && r.Keys == subs.Keys
            && (forall n, i :: n in r && i in r[n] <==> n in subs && i in subs[n] && (i != id || Some(n) != NameOf(id)))
            && (forall n, i :: n in r && i in r[n] ==> r[n][i] == subs[n][i])
  {
  }

  /** In a well-formed registry an id lives only under its own name, so `Removed` deletes it wherever it is. */
  lemma RemovedEverywhere(subs: Registry, counter: nat, id: string)
    requires WellFormed(subs, counter)
    ensures var r := Removed(subs, id);
            forall n, i :: n in r && i in r[n] <==> n in subs && i in subs[n] && i != id
  {
    RemovedEntries(subs, id);
    forall n, i | n in subs && i in subs[n] && i == id
      ensures NameOf(id) == Some(n)
    {
      var k: nat :| 1 <= k <= counter && i == Mint(n, k);
      MintParse(n, k);
    }
  }

  lemma AddedWellFormed(subs: Registry, counter: nat, name: string, sub: Subscriber)
    requires WellFormed(subs, counter)
    ensures WellFormed(Added(subs, name, Mint(name, counter + 1), sub), counter + 1)
  {
    var r := Added(subs, name, Mint(name, counter + 1), sub);
    AddedEntries(subs, name, Mint(name, counter + 1), sub);
    forall n, i | n in r && i in r[n]
      ensures MintedUpTo(n, i, counter + 1)
    {
      if (n, i) != (name, Mint(name, counter + 1)) {
        var k: nat :| 1 <= k <= counter && i == Mint(n, k);
      }
    }
  }

  lemma RemovedWellFormed(subs: Registry, counter: nat, id: string)
    requires WellFormed(subs, counter)
    ensures WellFormed(Removed(subs, id), counter)
  {
    RemovedEntries(subs, id);
  }

  /**
   * Unsubscribing the id a Subscribe just minted removes exactly that
   * subscription: the registry is as before, except that a name seen for the
   * first time keeps an empty map.
   */
  lemma SubscribeThenUnsubscribe(subs: Registry, counter: nat, name: string, sub: Subscriber)
    requires WellFormed(subs, counter)
    ensures var id := Mint(name, counter + 1);
            Removed(Added(subs, name, id, sub), id)
              == subs[name := if name in subs then subs[name] else map[]]
  {
    MintParse(name, counter + 1);
    MintedIdFresh(subs, counter, name);
    AddedThenRemoved(subs, name, Mint(name, counter + 1), sub);
  }

  /** Removing an id that was new under its own name undoes adding it, but for the name's map, which stays. */
  lemma AddedThenRemoved(subs: Registry, name: string, id: string, sub: Subscriber)
    requires NameOf(id) == Some(name)
    requires name in subs ==> id !in subs[name]
    ensures Removed(Added(subs, name, id, sub), id) == subs[name := if name in subs then subs[name] else map[]]
  {
    var before: map<string, Subscriber> := if name in subs then subs[name] else map[];
    var added := Added(subs, name, id, sub);
    RemovedByName(added, id, name);
    assert before[id := sub] - {id} == before;
  }

  /** Unsubscribing twice does what unsubscribing once does. */
  lemma UnsubscribeIdempotent(subs: Registry, id: string)
    ensures Removed(Removed(subs, id), id) == Removed(subs, id)
  {
  }

  /** The registry. The Go field `id` is `counter` here; the mutex is left out. */
  class Memory {
    var subs: Option<Registry>
    var counter: nat

    ghost predicate Valid()
      reads this
    {
      WellFormed(Entries(subs), counter)
    }

    /** `New`: an empty, non-nil registry. */
    constructor ()
      ensures subs == Some(map[]) && counter == 0
      ensures Valid()
    {
      subs := Some(map[]);
      counter := 0;
    }

    method Subscribe(name: string, sub: Subscriber?) returns (err: Option<Error>)
      modifies this, if sub != null then {sub.ident} else {}
      ensures err == None
      ensures name == "" || sub == null ==> subs == old(subs) && counter == old(counter)
      ensures name == "" && sub != null ==> sub.ID() == old(sub.ID())
      ensures name != "" && sub != null ==>
                counter == old(counter) + 1
                && subs == Some(Added(Entries(old(subs)), name, Mint(name, counter), sub))
                && sub.ID() == Mint(name, counter)
      ensures old(Valid()) ==> Valid()
    {
      if name == "" || sub == null {
        return None;
      }
      counter := counter + 1;
      var id := Mint(name, counter);
      if subs.None? {
        subs := Some(map[]);
      }
      var m := subs.value;
      if name !in m {
        var single: map<string, Subscriber> := map[id := sub];
        subs := Some(m[name := single]);
      } else {
        subs := Some(m[name := m[name][id := sub]]);
      }
      sub.SetID(id);
      if old(Valid()) {
        AddedWellFormed(Entries(old(subs)), old(counter), name, sub);
      }
      return None;
    }

    method Unsubscribe(id: string) returns (err: Option<Error>)
      modifies this
      ensures err == None && counter == old(counter)
      ensures old(subs).None? ==> subs.None?
      ensures old(subs).Some? ==> subs == Some(Removed(old(subs).value, id))
      ensures old(Valid()) ==> Valid()
    {
      var parsed := NameOf(id);
      if parsed.None? {
        return None;
      }
      var name := parsed.value;
      if subs.None? || name !in subs.value {
        return None;
      }
      var m := subs.value;
      RemovedByName(m, id, name);
      if id in m[name] {
        subs := Some(m[name := m[name] - {id}]);
      }
      if old(Valid()) {
        RemovedWellFormed(m, counter, id);
      }
      return None;
    }

    /**
     * The subscribers under `name`, one per subscription, in an order the
     * model leaves open (Go's map order); `order` names the subscription each
     * element comes from. A nil registry or an unknown name gives nil.
     */
    method Subscribers(name: string) returns (r: Option<seq<Subscriber>>, ghost order: seq<string>, err: Option<Error>)
      ensures err == None
      ensures subs.None? || name !in subs.value ==> r.None? && order == []
      ensures subs.Some? && name in subs.value ==>
                var m := subs.value[name];
                r.Some? && |r.value| == |m| == |order|
                && (forall i :: 0 <= i < |order| ==> order[i] in m && r.value[i] == m[order[i]])
                && (forall i, j :: 0 <= i < j < |order| ==> order[i] != order[j])
                && (forall k :: k in m ==> k in order)
    {
      order := [];
      if subs.None? || name !in subs.value {
        return None, order, None;
      }
      var m := subs.value[name];
      var keys := m.Keys;
      var out: seq<Subscriber> := [];
      while keys != {}
        invariant keys <= m.Keys
        invariant |out| == |order| && |order| + |keys| == |m|
        invariant forall i :: 0 <= i < |order| ==> order[i] in m && order[i] !in keys && out[i] == m[order[i]]
        invariant forall i, j :: 0 <= i < j < |order| ==> order[i] != order[j]
        invariant forall k :: k in m ==> k in keys || k in order
        decreases keys
      {
        var k :| k in keys;
        out := out + [m[k]];
        order := order + [k];
        keys := keys - {k};
      }
      return Some(out), order, None;
    }

    method Close() returns (err: Option<Error>)
      ensures err == None
    {
      return None;
    }
  }
}
