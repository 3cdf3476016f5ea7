/**
 * web/hook/data.go: the payload a GitHub workflow posts to the webhook and
 * `CreateGithubEvent`, which keeps the payload's metadata and turns each
 * `coverage: 83.3% of statements` output line into a Coverage with an
 * integer percentage.
 */
module Hook {
  import opened Wrappers
  import opened Text
  import opened Goqa

  /** One line of `go test -json` output. */
  datatype Datum = Datum(time: string, action: string, package: string, test: string, output: string, elapsed: string)

  /** The body the workflow posts. */
  datatype Payload = Payload(
    event: string,
    repository: string,
    commit: string,
    ref: string,
    head: string,
    workflow: string,
    data: seq<Datum>)

  /** The start of an output line that carries a coverage figure. */
  const CoveragePrefix := "coverage: "

  /** The sign and the two digit runs of a decimal fixed-point number. */
  datatype Fixed = Fixed(negative: bool, whole: string, fraction: string)

  /** Splits off an optional sign, then splits at the first `.`. */
  function SplitFixed(s: string): (f: Fixed)
    ensures |f.whole| + |f.fraction| <= |s|
  {
    var signed := |s| > 0 && (s[0] == '+' || s[0] == '-');
    var body := if signed then s[1..] else s;
    var dot := Index(body, '.');
    if dot == -1 then Fixed(signed && s[0] == '-', body, "")
    else Fixed(signed && s[0] == '-', body[..dot], body[dot + 1..])
  }

  /**
   * `strconv.ParseFloat` followed by `int(...)`, on decimal fixed-point
   * text: an optional sign, digits, and optionally a `.` and more digits,
   * with at least one digit in all. The value is truncated toward zero, so
   * the fraction is dropped whatever the sign. Any other text fails.
   */
  function ParseFixed(s: string): (r: Option<int>)
    ensures r.Some? ==> |s| > 0
  {
    var f := SplitFixed(s);
    if AllDigits(f.whole) && AllDigits(f.fraction) && |f.whole| + |f.fraction| >= 1 then
      var v: int := DecimalValue(f.whole);
      Some(if f.negative then -v else v)
    else None
  }

  /** Digits, a `.` and more text split back into the digits and the text after the `.`. */
  lemma SplitAtDot(whole: string, fraction: string)
    requires AllDigits(whole) && |whole| > 0
    ensures SplitFixed(whole + "." + fraction) == Fixed(false, whole, fraction)
  {
    var t := whole + "." + fraction;
    assert '.' !in whole;
    IndexAfterFreePrefix(whole, '.', fraction);
    assert t[..|whole|] == whole;
    assert t[|whole| + 1..] == fraction;
  }

  /** A whole number parses to itself. */
  lemma ParseFixedWhole(n: nat)
    ensures ParseFixed(NatToDecimal(n)) == Some(n)
  {
    var d := NatToDecimal(n);
    DecimalRoundTrip(n);
    assert '.' !in d;
  }

  /** A whole number followed by a fraction parses to the whole number: the fraction is cut off. */
  lemma ParseFixedTruncates(n: nat, fraction: string)
    requires AllDigits(fraction)
    ensures ParseFixed(NatToDecimal(n) + "." + fraction) == Some(n)
  {
    DecimalRoundTrip(n);
    SplitAtDot(NatToDecimal(n), fraction);
  }

  /**
   * A `-` in front of unsigned text negates what it parses to: with
   * `ParseFixedTruncates`, `-7.4` gives -7, so truncation is toward zero.
   */
  lemma ParseFixedNegated(t: string)
    requires |t| > 0 && IsDigit(t[0])
    ensures ParseFixed("-" + t) == match ParseFixed(t) case None => None case Some(v) => Some(-v)
  {
    var s := "-" + t;
    assert s[0] == '-' && s[1..] == t;
    assert !(t[0] == '+' || t[0] == '-');
    var f := SplitFixed(t);
    assert SplitFixed(s) == Fixed(true, f.whole, f.fraction);
  }

  /** Text that parses holds at least one digit: an empty string or a lone sign or `.` is rejected. */
  lemma ParsedNumberHasDigit(s: string)
    requires ParseFixed(s).Some?
    ensures exists j :: 0 <= j < |s| && IsDigit(s[j])
  {
    var f := SplitFixed(s);
    var start := if |s| > 0 && (s[0] == '+' || s[0] == '-') then 1 else 0;
    var body := s[start..];
    var dot := Index(body, '.');
    if |f.whole| > 0 {
      assert f.whole[0] == body[0] == s[start];
      assert IsDigit(s[start]);
    } else {
      assert dot != -1;
      assert f.fraction[0] == body[dot + 1] == s[start + dot + 1];
      assert IsDigit(s[start + dot + 1]);
    }
  }

  /**
   * The coverage one datum contributes, if any: its output must start with
   * `coverage: ` and hold a `%` at position 10 or later, and the text in
   * between must parse. Package and time come from the same datum.
   */
  function Extract(d: Datum): (r: Option<Coverage>)
    ensures r.Some? ==> CoveragePrefix <= d.output && r.value.pkg == d.package && r.value.time == d.time
  {
    if !(CoveragePrefix <= d.output) then None
    else
      var x := Index(d.output, '%');
      if x == -1 || x < 10 then None
      else
        match ParseFixed(d.output[10..x])
        case None => None
        case Some(v) => Some(Coverage(d.package, v, d.time))
  }

  /** The `x < 10` half of the guard never fires: the prefix holds no `%`, so a `%` is found at 10 or later. */
  lemma PercentNotInPrefix(output: string)
    requires CoveragePrefix <= output
    ensures Index(output, '%') == -1 || Index(output, '%') >= 10
  {
  }

  /** A prefixed line whose first `%` follows the number text reads that text as its percentage. */
  lemma ExtractReadsNumber(pkg: string, time: string, num: string, rest: string)
    requires '%' !in num
    ensures Extract(Datum(time, "output", pkg, "", CoveragePrefix + num + "%" + rest, ""))
         == match ParseFixed(num) case None => None case Some(v) => Some(Coverage(pkg, v, time))
  {
    var out := CoveragePrefix + num + "%" + rest;
    assert out[..10] == CoveragePrefix;
    IndexAfterFreePrefix(CoveragePrefix + num, '%', rest);
    assert out == CoveragePrefix + num + ['%'] + rest;
    assert out[10..|CoveragePrefix + num|] == num;
  }

  /** The line `go test -cover` prints: the percentage's whole part becomes the coverage. */
  lemma ExtractCoverageLine(pkg: string, time: string, n: nat, fraction: string, rest: string)
    requires AllDigits(fraction)
    ensures Extract(Datum(time, "output", pkg, "", CoveragePrefix + NatToDecimal(n) + "." + fraction + "%" + rest, ""))
         == Some(Coverage(pkg, n, time))
  {
    var num := NatToDecimal(n) + "." + fraction;
    assert '%' !in num;
    assert CoveragePrefix + NatToDecimal(n) + "." + fraction + "%" + rest == CoveragePrefix + num + "%" + rest;
    ExtractReadsNumber(pkg, time, num, rest);
    ParseFixedTruncates(n, fraction);
  }

  /** An output line without a `%` contributes nothing. */
  lemma ExtractNeedsPercent(d: Datum)
    requires '%' !in d.output
    ensures Extract(d) == None
  {
  }

  /** What each datum yields, position by position. */
  function Extracted(data: seq<Datum>): (xs: seq<Option<Coverage>>)
    ensures |xs| == |data|
  {
    seq(|data|, i requires 0 <= i < |data| => Extract(data[i]))
  }

  /** The values present in `xs`, in order. */
  function Present<T>(xs: seq<Option<T>>): (r: seq<T>)
    ensures |r| <= |xs|
  {
    if xs == [] then []
    else
      var n := |xs| - 1;
      Present(xs[..n]) + (match xs[n] case None => [] case Some(c) => [c])
  }

  /** The positions in `xs` that hold a value, in order. */
  function Positions<T>(xs: seq<Option<T>>): seq<nat> {
    if xs == [] then []
    else
      var n := |xs| - 1;
      Positions(xs[..n]) + (if xs[n].Some? then [n] else [])
  }

  /**
   * Value number k of `Present(xs)` sits at position `Positions(xs)[k]`; the
   * positions increase, and every position holding a value is among them.
   */
  lemma {:induction false} PresentAtPositions<T>(xs: seq<Option<T>>)
    ensures var r, ps := Present(xs), Positions(xs);
            && |ps| == |r|
            && (forall k :: 0 <= k < |ps| ==> ps[k] < |xs| && xs[ps[k]] == Some(r[k]))
            && (forall k, l :: 0 <= k < l < |ps| ==> ps[k] < ps[l])
            && (forall i :: 0 <= i < |xs| && xs[i].Some? ==> i in ps)
  {
    if xs != [] {
      var n := |xs| - 1;
      PresentAtPositions(xs[..n]);
      assert forall i :: 0 <= i < n ==> xs[..n][i] == xs[i];
    }
  }

  /** The coverages of the data, in data order, one per datum that contributes one. */
  function Coverages(data: seq<Datum>): (covs: seq<Coverage>)
    ensures |covs| <= |data|
  {
    Present(Extracted(data))
  }

  /** The data positions the coverages come from. */
  function Sources(data: seq<Datum>): seq<nat> {
    Positions(Extracted(data))
  }

  /**
   * Coverage number k is what datum number `Sources(data)[k]` yields. The
   * sources increase, so input order is kept, and every datum that yields a
   * coverage is among them.
   */
  lemma CoveragesFromSources(data: seq<Datum>)
    ensures var covs, src := Coverages(data), Sources(data);
            && |src| == |covs|
            && (forall k :: 0 <= k < |src| ==> src[k] < |data| && Extract(data[src[k]]) == Some(covs[k]))
            && (forall k, l :: 0 <= k < l < |src| ==> src[k] < src[l])
            && (forall i :: 0 <= i < |data| && Extract(data[i]).Some? ==> i in src)
  {
    var xs := Extracted(data);
    PresentAtPositions(xs);
    assert forall i :: 0 <= i < |data| ==> xs[i] == Extract(data[i]);
  }

  /** No datum whose output lacks the prefix contributes: with none at all the list is empty. */
  lemma NoCoverageLines(data: seq<Datum>)
    requires forall i :: 0 <= i < |data| ==> !(CoveragePrefix <= data[i].output)
    ensures Coverages(data) == []
  {
    var xs := Extracted(data);
    assert forall i :: 0 <= i < |xs| ==> xs[i].None?;
    NothingPresent(xs);
  }

  lemma {:induction false} NothingPresent<T>(xs: seq<Option<T>>)
    requires forall i :: 0 <= i < |xs| ==> xs[i].None?
    ensures Present(xs) == []
  {
    if xs != [] {
      NothingPresent(xs[..|xs| - 1]);
    }
  }

  /**
   * `CreateGithubEvent`: a nil payload gives a nil event; otherwise the six
   * metadata fields are copied and the coverages are extracted from the data.
   */
  method CreateGithubEvent(p: Option<Payload>) returns (e: Option<GithubEvent>)
    ensures p.None? <==> e.None?
    ensures p.Some? ==> e == Some(GithubEvent(p.value.event, p.value.repository, p.value.commit,
                                              p.value.ref, p.value.head, p.value.workflow,
                                              Coverages(p.value.data)))
  {
    if p.None? {
      return None;
    }
    var data := p.value.data;
    ghost var xs := Extracted(data);
    var covs: seq<Coverage> := [];
    for i := 0 to |data|
      invariant covs == Present(xs[..i])
    {
      assert xs[..i + 1][..i] == xs[..i];
      assert xs[i] == Extract(data[i]);
      var output := data[i].output;
      if !(CoveragePrefix <= output) {
        continue;
      }
      var x := Index(output, '%');
      if x == -1 || x < 10 {
        continue;
      }
      var v := ParseFixed(output[10..x]);
      if v.None? {
        continue;
      }
      covs := covs + [Coverage(data[i].package, v.value, data[i].time)];
    }
    assert xs[..|data|] == xs;
    e := Some(GithubEvent(p.value.event, p.value.repository, p.value.commit,
                          p.value.ref, p.value.head, p.value.workflow, covs));
  }
}
