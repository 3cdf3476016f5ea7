/**
 * cache/memory/cache_memory.go: the in-memory coverage cache, a map from
 * package name to that package's coverage which `Reinit` rebuilds wholesale.
 * The map can be nil (after `Close`), which `Get` and `Keys` tell apart from
 * an empty one.
 */
module CacheMemory {
  import opened Wrappers
  import opened Goqa

  /** The map `Reinit` builds: each coverage under its package, a later one replacing an earlier one. */
  function IndexByPkg(covs: seq<Coverage>): (d: map<string, Coverage>)
    ensures d.Keys == set i | 0 <= i < |covs| :: covs[i].pkg
  {
    if covs == [] then map[]
    else
      var rest := covs[..|covs| - 1];
      var last := covs[|covs| - 1];
      assert forall i :: 0 <= i < |rest| ==> rest[i] == covs[i];
      IndexByPkg(rest)[last.pkg := last]
  }

  /** The index of the last coverage of package `pkg` among `covs`. */
  ghost predicate LastOf(covs: seq<Coverage>, pkg: string, i: int) {
    0 <= i < |covs| && covs[i].pkg == pkg && forall j :: i < j < |covs| ==> covs[j].pkg != pkg
  }

  /** Each package maps to its last coverage in the list: when packages repeat, the last one wins. */
  lemma IndexByPkgLastWins(covs: seq<Coverage>, pkg: string)
    ensures pkg in IndexByPkg(covs) <==> exists i :: LastOf(covs, pkg, i)
    ensures forall i :: LastOf(covs, pkg, i) ==> IndexByPkg(covs)[pkg] == covs[i]
  {
    forall i | LastOf(covs, pkg, i)
      ensures pkg in IndexByPkg(covs) && IndexByPkg(covs)[pkg] == covs[i]
    {
      LastKept(covs, pkg, i);
    }
    if pkg in IndexByPkg(covs) {
      var k :| 0 <= k < |covs| && covs[k].pkg == pkg;
      LastExists(covs, pkg, k);
    }
  }

  /** The last coverage of a package is the one the map keeps. */
  lemma {:induction false} LastKept(covs: seq<Coverage>, pkg: string, i: int)
    requires LastOf(covs, pkg, i)
    ensures pkg in IndexByPkg(covs) && IndexByPkg(covs)[pkg] == covs[i]
  {
    var n := |covs| - 1;
    if i < n {
      var rest := covs[..n];
      assert LastOf(rest, pkg, i) by {
        assert forall j :: i < j < n ==> rest[j] == covs[j];
      }
      LastKept(rest, pkg, i);
    }
  }

  /** A package that occurs has a last occurrence. */
  lemma {:induction false} LastExists(covs: seq<Coverage>, pkg: string, k: int)
    requires 0 <= k < |covs| && covs[k].pkg == pkg
    ensures exists i :: LastOf(covs, pkg, i)
  {
    var n := |covs| - 1;
    if covs[n].pkg == pkg {
      assert LastOf(covs, pkg, n);
    } else {
      var rest := covs[..n];
      assert rest[k] == covs[k];
      LastExists(rest, pkg, k);
      var i :| LastOf(rest, pkg, i);
      assert LastOf(covs, pkg, i) by {
        assert forall j :: i < j < n ==> rest[j] == covs[j];
      }
    }
  }

  /** The coverages of distinct packages are all found under their own package. */
  lemma DistinctPackagesAllKept(covs: seq<Coverage>)
    requires forall i, j :: 0 <= i < j < |covs| ==> covs[i].pkg != covs[j].pkg
    ensures |IndexByPkg(covs)| == |covs|
    ensures forall i :: 0 <= i < |covs| ==> IndexByPkg(covs)[covs[i].pkg] == covs[i]
  {
    forall i | 0 <= i < |covs|
      ensures IndexByPkg(covs)[covs[i].pkg] == covs[i]
    {
      IndexByPkgLastWins(covs, covs[i].pkg);
      assert LastOf(covs, covs[i].pkg, i);
    }
    PkgsCount(covs);
  }

  /** With distinct packages, the map has one key per coverage. */
  lemma {:induction false} PkgsCount(covs: seq<Coverage>)
    requires forall i, j :: 0 <= i < j < |covs| ==> covs[i].pkg != covs[j].pkg
    ensures |IndexByPkg(covs)| == |covs|
  {
    if covs != [] {
      var n := |covs| - 1;
      PkgsCount(covs[..n]);
      assert covs[n].pkg !in IndexByPkg(covs[..n]);
    }
  }

  /** What `Get` returns for an absent package: a pointer to a zero Coverage. */
  const Zero := Coverage("", 0, "")

  class Memory {
    /** `items`; None is the nil map. The lock is left out. */
    var items: Option<map<string, Coverage>>

    /** `New`: an empty, non-nil map. */
    constructor ()
      ensures items == Some(map[])
    {
      items := Some(map[]);
    }

    /** The whole map is replaced by the coverages keyed by package; the old contents are not merged in. */
    method Reinit(covs: seq<Coverage>) returns (err: Option<Error>)
      modifies this
      ensures items == Some(IndexByPkg(covs))
      ensures err == None
    {
      var d: map<string, Coverage> := map[];
      for i := 0 to |covs|
        invariant d == IndexByPkg(covs[..i])
      {
        assert covs[..i + 1][..i] == covs[..i];
        d := d[covs[i].pkg := covs[i]];
      }
      assert covs[..|covs|] == covs;
      items := Some(d);
      err := None;
    }

    /**
     * A nil map gives a nil pointer and false. Otherwise `ok` says whether the
     * package is a key, and the pointer is to its coverage, or to a zero
     * Coverage when it is not a key.
     */
    method Get(pkg: string) returns (v: Option<Coverage>, ok: bool)
      ensures items.None? ==> v.None? && !ok
      ensures items.Some? ==> (ok <==> pkg in items.value)
      ensures items.Some? && ok ==> v == Some(items.value[pkg])
      ensures items.Some? && !ok ==> v == Some(Zero)
    {
      if items.None? {
        return None, false;
      }
      ok := pkg in items.value;
      v := Some(if ok then items.value[pkg] else Zero);
    }

    /** Every key once, in an order the model leaves open (Go's map order); nil for a nil map. */
    method Keys() returns (r: Option<seq<string>>, err: Option<Error>)
      ensures err == None
      ensures items.None? <==> r.None?
      ensures items.Some? ==>
                && |r.value| == |items.value|
                && (forall i, j :: 0 <= i < j < |r.value| ==> r.value[i] != r.value[j])
                && (forall k :: k in items.value <==> k in r.value)
    {
      if items.None? {
        return None, None;
      }
      var m := items.value;
      var left := m.Keys;
      var keys: seq<string> := [];
      while left != {}
        invariant left <= m.Keys
        invariant |keys| + |left| == |m|
        invariant forall i :: 0 <= i < |keys| ==> keys[i] in m && keys[i] !in left
        invariant forall i, j :: 0 <= i < j < |keys| ==> keys[i] != keys[j]
        invariant forall k :: k in m ==> k in left || k in keys
        decreases left
      {
        var k :| k in left;
        keys := keys + [k];
        left := left - {k};
      }
      return Some(keys), None;
    }

    /** The map is dropped. */
    method Close() returns (err: Option<Error>)
      modifies this
      ensures items.None? && err == None
    {
      items := None;
      err := None;
    }
  }

  /** After Close, Get finds nothing and Keys is nil. */
  method CloseThenRead(m: Memory, pkg: string) returns (v: Option<Coverage>, ok: bool, keys: Option<seq<string>>)
    modifies m
    ensures v.None? && !ok && keys.None?
  {
    var _ := m.Close();
    v, ok := m.Get(pkg);
    var err;
    keys, err := m.Keys();
  }

  /** After Reinit, Get finds exactly the packages of the list, each with its last coverage. */
  method ReinitThenGet(m: Memory, covs: seq<Coverage>, pkg: string) returns (v: Option<Coverage>, ok: bool)
    modifies m
    ensures ok <==> exists i :: 0 <= i < |covs| && covs[i].pkg == pkg
    ensures forall i :: LastOf(covs, pkg, i) ==> v == Some(covs[i])
    ensures !ok ==> v == Some(Zero)
  {
    var _ := m.Reinit(covs);
    v, ok := m.Get(pkg);
    IndexByPkgLastWins(covs, pkg);
  }
}
