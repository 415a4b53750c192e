/** The desk selector's option list, built identically in
    modules/desk_planning.py, modules/desk_config.py and twice in
    tischplanung_app.py: the desk ids (JSON keys, decimal strings) sorted by
    their integer value. */
module Registry {
  import opened Text

  predicate Ascending(xs: seq<nat>) {
    forall i, j :: 0 <= i < j < |xs| ==> xs[i] <= xs[j]
  }

  predicate Distinct<T(==)>(xs: seq<T>) {
    forall i, j :: 0 <= i < j < |xs| ==> xs[i] != xs[j]
  }

  function InsertNat(x: nat, xs: seq<nat>): (r: seq<nat>)
    requires Ascending(xs)
    ensures Ascending(r)
    ensures multiset(r) == multiset(xs) + multiset{x}
    ensures |r| == |xs| + 1 && r[0] == (if |xs| == 0 || x <= xs[0] then x else xs[0])
  {
    if |xs| == 0 then [x]
    else if x <= xs[0] then [x] + xs
    else
      var rest := InsertNat(x, xs[1..]);
      assert xs == [xs[0]] + xs[1..];
      assert xs[0] <= rest[0];
      [xs[0]] + rest
  }

  /** Python's `sorted` on a list of integers (as an insertion sort). */
  function SortNats(xs: seq<nat>): (r: seq<nat>)
    ensures Ascending(r)
    ensures multiset(r) == multiset(xs)
  {
    if |xs| == 0 then []
    else
      assert xs == [xs[0]] + xs[1..];
      InsertNat(xs[0], SortNats(xs[1..]))
  }

  /** `[int(t) for t in keys]`. */
  function ParseAll(keys: seq<string>): (ns: seq<nat>)
    requires forall i :: 0 <= i < |keys| ==> IsDecimal(keys[i])
    ensures |ns| == |keys|
    ensures forall i :: 0 <= i < |keys| ==> ns[i] == ParseNat(keys[i])
  {
    if |keys| == 0 then [] else [ParseNat(keys[0])] + ParseAll(keys[1..])
  }

  /** `[str(t) for t in ns]`. */
  function RenderAll(ns: seq<nat>): (r: seq<string>)
    ensures |r| == |ns|
    ensures forall i :: 0 <= i < |ns| ==> r[i] == NatToString(ns[i])
  {
    if |ns| == 0 then [] else [NatToString(ns[0])] + RenderAll(ns[1..])
  }

  /** `[str(t) for t in sorted([int(t) for t in tische.keys()])]`, the keys
      taken in the document's order. */
  function DeskOptions(keys: seq<string>): (r: seq<string>)
    requires forall i :: 0 <= i < |keys| ==> IsDecimal(keys[i])
    ensures |r| == |keys|
    ensures forall i :: 0 <= i < |r| ==> IsDecimal(r[i]) && NoLeadingZero(r[i])
    ensures forall i, j :: 0 <= i < j < |r| ==> ParseNat(r[i]) <= ParseNat(r[j])
    // the options denote the keys' values, each as often as it occurs
    ensures multiset(ParseAll(r)) == multiset(ParseAll(keys))
  {
    var numbers := ParseAll(keys);
    var sorted := SortNats(numbers);
    assert |sorted| == |numbers| by {
      assert |multiset(sorted)| == |multiset(numbers)|;
    }
    var r := RenderAll(sorted);
    ParseRendered(sorted);
    r
  }

  /** Parsing the rendered numbers gives the numbers back. */
  lemma {:induction false} ParseRendered(ns: seq<nat>)
    ensures forall i :: 0 <= i < |RenderAll(ns)| ==> IsDecimal(RenderAll(ns)[i])
    ensures ParseAll(RenderAll(ns)) == ns
    decreases |ns|
  {
    if |ns| > 0 {
      ParseRendered(ns[1..]);
      ParseNatToString(ns[0]);
      assert RenderAll(ns)[1..] == RenderAll(ns[1..]);
    }
  }

  lemma {:induction false} DistinctCountsAtMostOne<T>(xs: seq<T>, v: T)
    requires Distinct(xs)
    ensures multiset(xs)[v] <= 1
    decreases |xs|
  {
    if |xs| > 0 {
      assert xs == [xs[0]] + xs[1..];
      DistinctCountsAtMostOne(xs[1..], v);
      if v == xs[0] {
        assert v !in xs[1..];
      }
    }
  }

  lemma RepeatCountsTwice<T>(xs: seq<T>, i: nat, j: nat)
    requires i < j < |xs| && xs[i] == xs[j]
    ensures multiset(xs)[xs[i]] >= 2
  {
    assert xs == xs[..j] + [xs[j]] + xs[j + 1..];
    assert xs[i] in xs[..j];
  }

  /** Every canonical key shows up among the options. */
  lemma KeysAreOptions(keys: seq<string>)
    requires forall i :: 0 <= i < |keys| ==> IsDecimal(keys[i]) && NoLeadingZero(keys[i])
    ensures forall k :: k in keys ==> k in DeskOptions(keys)
  {
    var numbers := ParseAll(keys);
    var sorted := SortNats(numbers);
    var r := RenderAll(sorted);
    assert r == DeskOptions(keys);
    forall k | k in keys
      ensures k in r
    {
      var i :| 0 <= i < |keys| && keys[i] == k;
      assert numbers[i] in multiset(sorted);
      var j :| 0 <= j < |sorted| && sorted[j] == numbers[i];
      ToStringParseNat(k);
      assert r[j] == k;
    }
  }

  /** Every option is one of the canonical keys. */
  lemma OptionsAreKeys(keys: seq<string>)
    requires forall i :: 0 <= i < |keys| ==> IsDecimal(keys[i]) && NoLeadingZero(keys[i])
    ensures forall k :: k in DeskOptions(keys) ==> k in keys
  {
    var numbers := ParseAll(keys);
    var sorted := SortNats(numbers);
    var r := RenderAll(sorted);
    assert r == DeskOptions(keys);
    forall j | 0 <= j < |r|
      ensures r[j] in keys
    {
      assert sorted[j] in multiset(numbers);
      var i :| 0 <= i < |numbers| && numbers[i] == sorted[j];
      ToStringParseNat(keys[i]);
      assert r[j] == keys[i];
    }
  }

  /** Distinct canonical keys give options in strictly increasing order. */
  lemma OptionsStrictlyAscending(keys: seq<string>)
    requires forall i :: 0 <= i < |keys| ==> IsDecimal(keys[i]) && NoLeadingZero(keys[i])
    requires Distinct(keys)
    ensures var r := DeskOptions(keys);
      forall i, j :: 0 <= i < j < |r| ==> ParseNat(r[i]) < ParseNat(r[j])
  {
    var numbers := ParseAll(keys);
    var sorted := SortNats(numbers);
    assert DeskOptions(keys) == RenderAll(sorted);
    ParseRendered(sorted);
    assert Distinct(numbers) by {
      forall i, j | 0 <= i < j < |numbers|
        ensures numbers[i] != numbers[j]
      {
        if numbers[i] == numbers[j] {
          ParseNatInjective(keys[i], keys[j]);
        }
      }
    }
    SortedDistinctIsStrict(numbers, sorted);
  }

  /** An ascending permutation of a list without repeats ascends strictly. */
  lemma SortedDistinctIsStrict(xs: seq<nat>, ys: seq<nat>)
    requires Distinct(xs) && Ascending(ys) && multiset(ys) == multiset(xs)
    ensures forall i, j :: 0 <= i < j < |ys| ==> ys[i] < ys[j]
  {
    forall i, j | 0 <= i < j < |ys|
      ensures ys[i] < ys[j]
    {
      if ys[i] == ys[j] {
        RepeatCountsTwice(ys, i, j);
        DistinctCountsAtMostOne(xs, ys[i]);
      }
    }
  }

  /** With distinct canonical keys (every id written as `str` writes it), the
      option list holds exactly the desk ids, in strictly increasing numeric
      order; so "10" comes after "9". */
  lemma DeskOptionsAreKeys(keys: seq<string>)
    requires forall i :: 0 <= i < |keys| ==> IsDecimal(keys[i]) && NoLeadingZero(keys[i])
    requires Distinct(keys)
    ensures var r := DeskOptions(keys);
      && (forall k :: k in r <==> k in keys)
      && (forall i, j :: 0 <= i < j < |r| ==> ParseNat(r[i]) < ParseNat(r[j]))
  {
    KeysAreOptions(keys);
    OptionsAreKeys(keys);
    OptionsStrictlyAscending(keys);
  }

  /** The example the selector exists for: desk "9" is listed before desk "10". */
  lemma NineBeforeTen(keys: seq<string>, i: nat, j: nat)
    requires forall k :: 0 <= k < |keys| ==> IsDecimal(keys[k]) && NoLeadingZero(keys[k])
    requires Distinct(keys)
    requires i < |DeskOptions(keys)| && j < |DeskOptions(keys)|
    requires DeskOptions(keys)[i] == "9" && DeskOptions(keys)[j] == "10"
    ensures i < j
  {
    DeskOptionsAreKeys(keys);
    var r := DeskOptions(keys);
    assert ParseNat("9") == 9 && ParseNat("10") == 10;
  }
}
