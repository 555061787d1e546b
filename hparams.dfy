/**
 * The hyper-parameter configuration layer: counting the configuration space of
 * three parameter groups, sampling one configuration, and enumerating the
 * Cartesian product of a group's candidate lists.
 *
 * A Python dict is modelled as the sequence of its items in insertion order
 * (what `dict.items()` iterates), with pairwise distinct names.
 */
module HParams {
  import opened Wrappers

  /** A hyper-parameter value: a string, a list of candidates, or a scalar
      without a length (an int, a float, a bool, None), identified by `id`. */
  datatype Value = Str(s: string) | List(items: seq<Value>) | Atom(id: int)

  datatype Entry = Entry(name: string, value: Value)

  type Dict = seq<Entry>

  /** Distinct names: what makes a sequence of items a dict. */
  predicate IsDict(d: Dict) {
    forall i, j :: 0 <= i < j < |d| ==> d[i].name != d[j].name
  }

  function Names(d: Dict): (r: seq<string>)
    ensures |r| == |d| && forall i :: 0 <= i < |d| ==> r[i] == d[i].name
  {
    seq(|d|, i requires 0 <= i < |d| => d[i].name)
  }

  /** `d[k]` as an optional lookup. */
  function Get(d: Dict, k: string): (r: Option<Value>)
    ensures r.None? <==> k !in Names(d)
    ensures r.Some? ==> exists i :: 0 <= i < |d| && d[i] == Entry(k, r.value)
  {
    if d == [] then None
    else if d[0].name == k then Some(d[0].value)
    else Get(d[1..], k)
  }

  /** `d[k] = v`: an existing key keeps its position, a new key is appended. */
  function Put(d: Dict, k: string, v: Value): (r: Dict)
    ensures Get(r, k) == Some(v)
    ensures forall k' :: k' != k ==> Get(r, k') == Get(d, k')
    ensures |r| == if k in Names(d) then |d| else |d| + 1
    ensures forall i :: 0 <= i < |d| ==> r[i].name == d[i].name
    ensures k !in Names(d) ==> r[|d|].name == k
    decreases |d|
  {
    if d == [] then [Entry(k, v)]
    else if d[0].name == k then [Entry(k, v)] + d[1..]
    else
      assert k in Names(d) <==> k in Names(d[1..]) by {
        assert Names(d) == [d[0].name] + Names(d[1..]);
      }
      [d[0]] + Put(d[1..], k, v)
  }

  /** Assigning a key keeps the names distinct. */
  lemma PutKeepsDict(d: Dict, k: string, v: Value)
    requires IsDict(d)
    ensures IsDict(Put(d, k, v))
  {
    var r := Put(d, k, v);
    forall i, j | 0 <= i < j < |r| ensures r[i].name != r[j].name {
      if j == |d| {
        assert r[i].name == d[i].name && d[i].name in Names(d);
      }
    }
  }

  // ---------------------------------------------------------------------
  // Counting the configuration space
  // ---------------------------------------------------------------------

  /** `len(v)`: strings and lists have a length; every other value raises TypeError. */
  function Len(v: Value): (r: Option<nat>)
    ensures r.None? <==> v.Atom?
    ensures v.Str? ==> r == Some(|v.s|)
    ensures v.List? ==> r == Some(|v.items|)
  {
    match v
    case Str(s) => Some(|s|)
    case List(xs) => Some(|xs|)
    case Atom(_) => None
  }

  /** What one entry multiplies the count by: its length, or 1 when `len` raises. */
  function Factor(v: Value): nat {
    match Len(v)
    case Some(n) => n
    case None => 1
  }

  /** The product of the factors of a group's entries. */
  function GroupCount(d: Dict): nat {
    if d == [] then 1 else Factor(d[0].value) * GroupCount(d[1..])
  }

  /** A group that is `None` contributes a factor of 1. */
  function OptionalCount(g: Option<Dict>): nat {
    match g
    case None => 1
    case Some(d) => GroupCount(d)
  }

  function NumPossibleConfigs(benchmarkParams: Option<Dict>, hParams: Option<Dict>,
                              pretextParams: Option<Dict>): nat
  {
    OptionalCount(benchmarkParams) * OptionalCount(hParams) * OptionalCount(pretextParams)
  }

  lemma {:induction false} GroupCountAppend(d: Dict, e: Entry)
    ensures GroupCount(d + [e]) == GroupCount(d) * Factor(e.value)
    decreases |d|
  {
    if d != [] {
      assert (d + [e])[1..] == d[1..] + [e];
      GroupCountAppend(d[1..], e);
      MulAssoc(Factor(d[0].value), GroupCount(d[1..]), Factor(e.value));
    }
  }

  lemma MulAssoc(a: nat, b: nat, c: nat)
    ensures a * (b * c) == (a * b) * c
  {
  }

  lemma MulSwap(a: nat, b: nat, c: nat)
    ensures a * (b * c) == b * (a * c)
  {
  }

  /**
   * `ComputeNumPossibleConfigs`: one loop per group, multiplying the running
   * count by the length of every entry that has one.
   */
  method ComputeNumPossibleConfigs(benchmarkParams: Option<Dict>, hParams: Option<Dict>,
                                   pretextParams: Option<Dict>)
    returns (numPossibleConfigs: nat)
    ensures numPossibleConfigs == NumPossibleConfigs(benchmarkParams, hParams, pretextParams)
  {
    numPossibleConfigs := 1;
    if benchmarkParams.Some? {
      var items := benchmarkParams.value;
      var i := 0;
      while i < |items|
        invariant 0 <= i <= |items|
        invariant numPossibleConfigs == GroupCount(items[..i])
      {
        assert items[..i + 1] == items[..i] + [items[i]];
        GroupCountAppend(items[..i], items[i]);
        var len := Len(items[i].value);
        if len.Some? {
          numPossibleConfigs := numPossibleConfigs * len.value;
        }
        i := i + 1;
      }
      assert items[..i] == items;
    }
    ghost var afterBenchmark := numPossibleConfigs;
    assert afterBenchmark == OptionalCount(benchmarkParams);
    if hParams.Some? {
      var items := hParams.value;
      var i := 0;
      while i < |items|
        invariant 0 <= i <= |items|
        invariant numPossibleConfigs == afterBenchmark * GroupCount(items[..i])
      {
        assert items[..i + 1] == items[..i] + [items[i]];
        GroupCountAppend(items[..i], items[i]);
        MulAssoc(afterBenchmark, GroupCount(items[..i]), Factor(items[i].value));
        var len := Len(items[i].value);
        if len.Some? {
          numPossibleConfigs := numPossibleConfigs * len.value;
        }
        i := i + 1;
      }
      assert items[..i] == items;
    }
    ghost var afterModel := numPossibleConfigs;
    assert afterModel == OptionalCount(benchmarkParams) * OptionalCount(hParams);
    if pretextParams.Some? {
      var items := pretextParams.value;
      var i := 0;
      while i < |items|
        invariant 0 <= i <= |items|
        invariant numPossibleConfigs == afterModel * GroupCount(items[..i])
      {
        assert items[..i + 1] == items[..i] + [items[i]];
        GroupCountAppend(items[..i], items[i]);
        MulAssoc(afterModel, GroupCount(items[..i]), Factor(items[i].value));
        var len := Len(items[i].value);
        if len.Some? {
          numPossibleConfigs := numPossibleConfigs * len.value;
        }
        i := i + 1;
      }
      assert items[..i] == items;
    }
  }

  /** An entry that has a length of zero: an empty list or an empty string. */
  predicate HasEmptyEntry(d: Dict) {
    exists i :: 0 <= i < |d| && Len(d[i].value) == Some(0)
  }

  /** A group's count is zero exactly when one of its entries is empty. */
  lemma {:induction false} GroupCountZeroIff(d: Dict)
    ensures GroupCount(d) == 0 <==> HasEmptyEntry(d)
    decreases |d|
  {
    if d != [] {
      GroupCountZeroIff(d[1..]);
      if HasEmptyEntry(d[1..]) {
        var i :| 0 <= i < |d[1..]| && Len(d[1..][i].value) == Some(0);
        assert Len(d[i + 1].value) == Some(0);
      }
      if HasEmptyEntry(d) && Len(d[0].value) != Some(0) {
        var i :| 0 <= i < |d| && Len(d[i].value) == Some(0);
        assert d[1..][i - 1] == d[i];
      }
    }
  }

  /** The whole count is zero exactly when some non-`None` group has an empty entry. */
  lemma CountZeroIff(benchmarkParams: Option<Dict>, hParams: Option<Dict>, pretextParams: Option<Dict>)
    ensures NumPossibleConfigs(benchmarkParams, hParams, pretextParams) == 0 <==>
      (benchmarkParams.Some? && HasEmptyEntry(benchmarkParams.value)) ||
      (hParams.Some? && HasEmptyEntry(hParams.value)) ||
      (pretextParams.Some? && HasEmptyEntry(pretextParams.value))
  {
    if benchmarkParams.Some? { GroupCountZeroIff(benchmarkParams.value); }
    if hParams.Some? { GroupCountZeroIff(hParams.value); }
    if pretextParams.Some? { GroupCountZeroIff(pretextParams.value); }
  }

  predicate AllScalars(d: Dict) {
    forall i :: 0 <= i < |d| ==> d[i].value.Atom?
  }

  /** Scalars without a length contribute nothing: an all-scalar group counts 1. */
  lemma {:induction false} AllScalarsCountOne(d: Dict)
    requires AllScalars(d)
    ensures GroupCount(d) == 1
    decreases |d|
  {
    if d != [] {
      assert AllScalars(d[1..]) by {
        forall i | 0 <= i < |d[1..]| ensures d[1..][i].value.Atom? {
          assert d[1..][i] == d[i + 1];
        }
      }
      AllScalarsCountOne(d[1..]);
    }
  }

  lemma {:induction false} GroupCountConcat(d1: Dict, d2: Dict)
    ensures GroupCount(d1 + d2) == GroupCount(d1) * GroupCount(d2)
    decreases |d1|
  {
    if d1 != [] {
      assert (d1 + d2)[1..] == d1[1..] + d2;
      GroupCountConcat(d1[1..], d2);
      MulAssoc(Factor(d1[0].value), GroupCount(d1[1..]), GroupCount(d2));
    } else {
      assert d1 + d2 == d2;
    }
  }

  /** A string entry, wherever it sits, multiplies the count by its character length. */
  lemma StringEntryMultiplies(d1: Dict, name: string, s: string, d2: Dict)
    ensures GroupCount(d1 + [Entry(name, Str(s))] + d2) == GroupCount(d1 + d2) * |s|
  {
    var e := Entry(name, Str(s));
    GroupCountConcat(d1 + [e], d2);
    GroupCountAppend(d1, e);
    GroupCountConcat(d1, d2);
    MulSwapRight(GroupCount(d1), |s|, GroupCount(d2));
  }

  lemma MulSwapRight(a: nat, b: nat, c: nat)
    ensures a * b * c == a * c * b
  {
  }

  /** `{'lr': [0.1, 0.01]}`, `{'hidden': [8, 16, 32]}` and `None` give 6 configurations. */
  lemma SixConfigurations()
    ensures NumPossibleConfigs(Some([Entry("lr", List([Atom(1), Atom(2)]))]),
                               Some([Entry("hidden", List([Atom(8), Atom(16), Atom(32)]))]),
                               None) == 6
  {
  }

  // ---------------------------------------------------------------------
  // Sampling one configuration
  // ---------------------------------------------------------------------

  /** `random.choice` on an empty sequence raises IndexError, which is not caught. */
  datatype SampleError = EmptySequence

  /**
   * `_SampleValue`: a string is kept whole; a list yields one of its elements;
   * a value without a length is kept (the TypeError is caught). `draw` stands
   * for the random source: the element taken is at index `draw % len`.
   */
  function SampleValue(v: Value, draw: nat): (r: Result<Value, SampleError>)
    ensures v.Str? ==> r == Ok(v)
    ensures v.Atom? ==> r == Ok(v)
    ensures v.List? ==> (r.Err? <==> v.items == [])
    ensures v.List? && r.Ok? ==> r.value in v.items
  {
    match v
    case Str(_) => Ok(v)
    case List(xs) => if xs == [] then Err(EmptySequence) else Ok(xs[draw % |xs|])
    case Atom(_) => Ok(v)
  }

  /** Every candidate of a list can be drawn. */
  lemma EveryCandidateDrawable(xs: seq<Value>, i: nat)
    requires i < |xs|
    ensures SampleValue(List(xs), i) == Ok(xs[i])
  {
  }

  /**
   * One group's dict comprehension: the same names in the same order, each
   * value sampled with its own draw; any empty list raises.
   */
  function SampleGroup(d: Dict, draws: seq<nat>): (r: Result<Dict, SampleError>)
    requires |draws| == |d|
    ensures r.Ok? <==> forall i :: 0 <= i < |d| ==> SampleValue(d[i].value, draws[i]).Ok?
    ensures r.Ok? ==> |r.value| == |d|
    ensures r.Ok? ==> forall i :: 0 <= i < |d| ==>
      r.value[i].name == d[i].name && SampleValue(d[i].value, draws[i]) == Ok(r.value[i].value)
    decreases |d|
  {
    if d == [] then Ok([])
    else
      var v :- SampleValue(d[0].value, draws[0]);
      var rest :- SampleGroup(d[1..], draws[1..]);
      Ok([Entry(d[0].name, v)] + rest)
  }

  /** A group that is `None` samples to `None`. */
  function SampleOptional(g: Option<Dict>, draws: seq<nat>): (r: Result<Option<Dict>, SampleError>)
    requires g.Some? ==> |draws| == |g.value|
    ensures g.None? ==> r == Ok(None)
    ensures g.Some? ==> (r.Ok? <==> SampleGroup(g.value, draws).Ok?)
    ensures g.Some? && r.Ok? ==> r.value == Some(SampleGroup(g.value, draws).value)
  {
    match g
    case None => Ok(None)
    case Some(d) =>
      var s :- SampleGroup(d, draws);
      Ok(Some(s))
  }

  /** `SampleModelConfig`: the three groups sampled independently, each with its own draws. */
  function SampleModelConfig(benchmarkParams: Option<Dict>, hParams: Option<Dict>, pretextParams: Option<Dict>,
                             benchmarkDraws: seq<nat>, hDraws: seq<nat>, pretextDraws: seq<nat>)
    : (r: Result<(Option<Dict>, Option<Dict>, Option<Dict>), SampleError>)
    requires benchmarkParams.Some? ==> |benchmarkDraws| == |benchmarkParams.value|
    requires hParams.Some? ==> |hDraws| == |hParams.value|
    requires pretextParams.Some? ==> |pretextDraws| == |pretextParams.value|
    ensures r.Ok? <==>
      SampleOptional(benchmarkParams, benchmarkDraws).Ok? &&
      SampleOptional(hParams, hDraws).Ok? &&
      SampleOptional(pretextParams, pretextDraws).Ok?
    ensures r.Ok? ==>
      r.value.0 == SampleOptional(benchmarkParams, benchmarkDraws).value &&
      r.value.1 == SampleOptional(hParams, hDraws).value &&
      r.value.2 == SampleOptional(pretextParams, pretextDraws).value
  {
    var b :- SampleOptional(benchmarkParams, benchmarkDraws);
    var h :- SampleOptional(hParams, hDraws);
    var p :- SampleOptional(pretextParams, pretextDraws);
    Ok((b, h, p))
  }

  /** A group holding no list is sampled to itself. */
  lemma {:induction false} SampleWithoutListsIsIdentity(d: Dict, draws: seq<nat>)
    requires |draws| == |d|
    requires forall i :: 0 <= i < |d| ==> !d[i].value.List?
    ensures SampleGroup(d, draws) == Ok(d)
    decreases |d|
  {
    if d != [] {
      assert forall i :: 0 <= i < |d[1..]| ==> d[1..][i] == d[i + 1];
      SampleWithoutListsIsIdentity(d[1..], draws[1..]);
      assert d == [Entry(d[0].name, d[0].value)] + d[1..];
    }
  }

  /** A sampled group is again a dict, with every value a candidate of the original. */
  lemma SampledGroupIsDict(d: Dict, draws: seq<nat>)
    requires |draws| == |d| && IsDict(d)
    requires SampleGroup(d, draws).Ok?
    ensures IsDict(SampleGroup(d, draws).value)
    ensures forall i :: 0 <= i < |d| ==>
      var v := SampleGroup(d, draws).value[i].value;
      if d[i].value.List? then v in d[i].value.items else v == d[i].value
  {
  }

  // ---------------------------------------------------------------------
  // Enumerating the Cartesian product
  // ---------------------------------------------------------------------

  /**
   * The candidate list a value contributes to the product: a list as it is,
   * anything not iterable as a singleton, and a string -- which is iterable --
   * split into its one-character strings.
   */
  function Candidates(v: Value): (c: seq<Value>)
    ensures |c| == Factor(v)
    ensures v.Str? ==> forall i :: 0 <= i < |c| ==> c[i] == Str([v.s[i]])
  {
    match v
    case List(xs) => xs
    case Str(s) => seq(|s|, i requires 0 <= i < |s| => Str([s[i]]))
    case Atom(_) => [v]
  }

  /** Sampling keeps a string whole, but the product never yields a string of two or more characters whole. */
  lemma StringSampledWholeButSplitInProduct(s: string, draw: nat)
    requires |s| >= 2
    ensures SampleValue(Str(s), draw) == Ok(Str(s))
    ensures Str(s) !in Candidates(Str(s))
  {
    var c := Candidates(Str(s));
    forall i | 0 <= i < |c| ensures c[i] != Str(s) {
      assert |c[i].s| == 1;
    }
  }

  /** Code-point lexicographic order on strings, as Python compares `str`. */
  predicate StrLess(a: string, b: string)
    decreases |a|
  {
    |b| > 0 && (|a| == 0 || a[0] < b[0] || (a[0] == b[0] && StrLess(a[1..], b[1..])))
  }

  lemma {:induction false} StrLessTotal(a: string, b: string)
    requires a != b
    ensures StrLess(a, b) || StrLess(b, a)
    decreases |a|
  {
    if |a| > 0 && |b| > 0 && a[0] == b[0] {
      assert a == [a[0]] + a[1..] && b == [b[0]] + b[1..];
      StrLessTotal(a[1..], b[1..]);
    }
  }

  /** Insertion of one item into names sorted by `StrLess`. */
  function InsertEntry(e: Entry, s: Dict): (r: Dict)
    ensures multiset(r) == multiset(s) + multiset{e}
    ensures |r| > 0 && (r[0] == e || (s != [] && r[0] == s[0]))
    decreases |s|
  {
    if s == [] then [e]
    else if StrLess(e.name, s[0].name) then [e] + s
    else
      assert s == [s[0]] + s[1..];
      [s[0]] + InsertEntry(e, s[1..])
  }

  /** `sorted(param_list_dict)` paired with the values: the items ordered by name. */
  function SortEntries(d: Dict): (r: Dict)
    ensures multiset(r) == multiset(d)
    decreases |d|
  {
    if d == [] then []
    else
      assert d == [d[0]] + d[1..];
      InsertEntry(d[0], SortEntries(d[1..]))
  }

  predicate StrictlySorted(names: seq<string>) {
    forall i :: 0 < i < |names| ==> StrLess(names[i - 1], names[i])
  }

  lemma {:induction false} InsertKeepsSorted(e: Entry, s: Dict)
    requires StrictlySorted(Names(s))
    requires e.name !in Names(s)
    ensures StrictlySorted(Names(InsertEntry(e, s)))
    decreases |s|
  {
    if s != [] && !StrLess(e.name, s[0].name) {
      StrLessTotal(e.name, s[0].name);
      assert StrictlySorted(Names(s[1..])) by {
        forall i | 0 < i < |s[1..]| ensures StrLess(s[1..][i - 1].name, s[1..][i].name) {
          assert s[1..][i - 1] == s[i] && s[1..][i] == s[i + 1];
        }
      }
      assert e.name !in Names(s[1..]) by {
        forall i | 0 <= i < |s[1..]| ensures s[1..][i].name != e.name {
          assert s[1..][i] == s[i + 1];
        }
      }
      InsertKeepsSorted(e, s[1..]);
    }
  }

  lemma NameInMultiset(d: Dict, d': Dict, k: string)
    requires multiset(d) == multiset(d')
    requires k in Names(d)
    ensures k in Names(d')
  {
    var i :| 0 <= i < |d| && d[i].name == k;
    assert d[i] in multiset(d);
    assert d[i] in multiset(d');
    var j :| 0 <= j < |d'| && d'[j] == d[i];
  }

  /** The items of a dict, sorted by name, have strictly increasing names. */
  lemma {:induction false} SortEntriesSorted(d: Dict)
    requires IsDict(d)
    ensures StrictlySorted(Names(SortEntries(d)))
    decreases |d|
  {
    if d != [] {
      var rest := d[1..];
      assert IsDict(rest) by {
        forall i, j | 0 <= i < j < |rest| ensures rest[i].name != rest[j].name {
          assert rest[i] == d[i + 1] && rest[j] == d[j + 1];
        }
      }
      SortEntriesSorted(rest);
      assert d[0].name !in Names(rest) by {
        forall j | 0 <= j < |rest| ensures rest[j].name != d[0].name {
          assert rest[j] == d[j + 1];
        }
      }
      if d[0].name in Names(SortEntries(rest)) {
        NameInMultiset(SortEntries(rest), rest, d[0].name);
      }
      InsertKeepsSorted(d[0], SortEntries(rest));
    }
  }

  /** Sorting by name leaves the count unchanged. */
  lemma {:induction false} InsertEntryCount(e: Entry, s: Dict)
    ensures GroupCount(InsertEntry(e, s)) == Factor(e.value) * GroupCount(s)
    decreases |s|
  {
    if s != [] && !StrLess(e.name, s[0].name) {
      InsertEntryCount(e, s[1..]);
      MulSwap(Factor(s[0].value), Factor(e.value), GroupCount(s[1..]));
    }
  }

  lemma {:induction false} SortEntriesCount(d: Dict)
    ensures GroupCount(SortEntries(d)) == GroupCount(d)
    decreases |d|
  {
    if d != [] {
      SortEntriesCount(d[1..]);
      InsertEntryCount(d[0], SortEntries(d[1..]));
    }
  }

  /** The number of combinations of a list of candidate lists. */
  function Size(ls: seq<seq<Value>>): nat {
    if ls == [] then 1 else |ls[0]| * Size(ls[1..])
  }

  function Prefixed(x: Value, ts: seq<seq<Value>>): (r: seq<seq<Value>>)
    ensures |r| == |ts|
  {
    seq(|ts|, j requires 0 <= j < |ts| => [x] + ts[j])
  }

  /** Every element of `xs` in front of every tuple of `ts`, the element varying slowest. */
  function PrependEach(xs: seq<Value>, ts: seq<seq<Value>>): (r: seq<seq<Value>>)
    ensures |r| == |xs| * |ts|
    decreases |xs|
  {
    if xs == [] then [] else Prefixed(xs[0], ts) + PrependEach(xs[1..], ts)
  }

  /** `itertools.product(*ls)`: every tuple of one element per list, in lexicographic order. */
  function Product(ls: seq<seq<Value>>): (r: seq<seq<Value>>)
    ensures |r| == Size(ls)
    ensures forall k :: 0 <= k < |r| ==> |r[k]| == |ls|
    decreases |ls|
  {
    if ls == [] then [[]]
    else
      var rest := Product(ls[1..]);
      var r := PrependEach(ls[0], rest);
      PrependEachMembers(ls[0], rest);
      r
  }

  lemma {:induction false} PrependEachMembers(xs: seq<Value>, ts: seq<seq<Value>>)
    ensures forall u :: u in PrependEach(xs, ts) ==> |u| > 0 && u[0] in xs && u[1..] in ts
    decreases |xs|
  {
    if xs != [] {
      PrependEachMembers(xs[1..], ts);
      forall u | u in PrependEach(xs, ts) ensures |u| > 0 && u[0] in xs && u[1..] in ts {
        if u in Prefixed(xs[0], ts) {
          var j :| 0 <= j < |ts| && Prefixed(xs[0], ts)[j] == u;
          assert u[1..] == ts[j];
        } else {
          assert u in PrependEach(xs[1..], ts);
        }
      }
    }
  }

  /** Position `a * |ts| + b` holds element `a` of `xs` in front of tuple `b` of `ts`. */
  lemma {:induction false} PrependEachAt(xs: seq<Value>, ts: seq<seq<Value>>, a: nat, b: nat)
    requires a < |xs| && b < |ts|
    ensures a * |ts| + b < |xs| * |ts|
    ensures PrependEach(xs, ts)[a * |ts| + b] == [xs[a]] + ts[b]
    decreases a
  {
    var m := |ts|;
    if a > 0 {
      PrependEachAt(xs[1..], ts, a - 1, b);
      assert a * m + b == m + ((a - 1) * m + b);
      assert |xs| * m == m + (|xs| - 1) * m;
    }
  }

  /** A choice of one index per candidate list. */
  predicate ValidPick(ls: seq<seq<Value>>, idx: seq<nat>) {
    |idx| == |ls| && forall j :: 0 <= j < |ls| ==> idx[j] < |ls[j]|
  }

  function Pick(ls: seq<seq<Value>>, idx: seq<nat>): seq<Value>
    requires ValidPick(ls, idx)
  {
    seq(|ls|, j requires 0 <= j < |ls| => ls[j][idx[j]])
  }

  /** The mixed-radix position of a choice: the last list varies fastest. */
  function Rank(ls: seq<seq<Value>>, idx: seq<nat>): nat
    requires ValidPick(ls, idx)
    decreases |ls|
  {
    if ls == [] then 0 else idx[0] * Size(ls[1..]) + Rank(ls[1..], idx[1..])
  }

  /** Every combination occurs in the product, at its lexicographic rank. */
  lemma {:induction false} ProductAt(ls: seq<seq<Value>>, idx: seq<nat>)
    requires ValidPick(ls, idx)
    ensures Rank(ls, idx) < |Product(ls)|
    ensures Product(ls)[Rank(ls, idx)] == Pick(ls, idx)
    decreases |ls|
  {
    if ls != [] {
      var rest := Product(ls[1..]);
      assert ValidPick(ls[1..], idx[1..]);
      ProductAt(ls[1..], idx[1..]);
      PrependEachAt(ls[0], rest, idx[0], Rank(ls[1..], idx[1..]));
      assert Pick(ls, idx) == [ls[0][idx[0]]] + Pick(ls[1..], idx[1..]);
    }
  }

  /** Every tuple of the product takes its j-th component from the j-th list. */
  lemma {:induction false} ProductMembers(ls: seq<seq<Value>>, k: nat, j: nat)
    requires k < |Product(ls)| && j < |ls|
    ensures Product(ls)[k][j] in ls[j]
    decreases |ls|
  {
    var rest := Product(ls[1..]);
    PrependEachMembers(ls[0], rest);
    var u := Product(ls)[k];
    assert u in PrependEach(ls[0], rest);
    if j > 0 {
      var k' :| 0 <= k' < |rest| && rest[k'] == u[1..];
      ProductMembers(ls[1..], k', j - 1);
    }
  }

  function CandidateLists(d: Dict): (ls: seq<seq<Value>>)
    ensures |ls| == |d|
  {
    seq(|d|, i requires 0 <= i < |d| => Candidates(d[i].value))
  }

  lemma {:induction false} CandidateListsSize(d: Dict)
    ensures Size(CandidateLists(d)) == GroupCount(d)
    decreases |d|
  {
    if d != [] {
      assert CandidateLists(d)[1..] == CandidateLists(d[1..]);
      CandidateListsSize(d[1..]);
    }
  }

  function Zip(names: seq<string>, vs: seq<Value>): (r: Dict)
    requires |vs| == |names|
    ensures Names(r) == names
  {
    seq(|names|, i requires 0 <= i < |names| => Entry(names[i], vs[i]))
  }

  /**
   * `GetCartesianProduct`: one dict per combination of the candidate lists of
   * the entries taken in name order, keyed by the sorted names.
   */
  function GetCartesianProduct(d: Dict): (r: seq<Dict>)
    ensures forall k :: 0 <= k < |r| ==> Names(r[k]) == Names(SortEntries(d))
  {
    var sorted := SortEntries(d);
    var tuples := Product(CandidateLists(sorted));
    seq(|tuples|, k requires 0 <= k < |tuples| => Zip(Names(sorted), tuples[k]))
  }

  /** The product has exactly as many configurations as the count of the group. */
  lemma CartesianProductSize(d: Dict)
    ensures |GetCartesianProduct(d)| == GroupCount(d)
  {
    CandidateListsSize(SortEntries(d));
    SortEntriesCount(d);
  }

  /**
   * Every configuration of the product is keyed by the names of the group in
   * strictly increasing order, and takes each value from that name's candidates.
   */
  lemma CartesianProductKeys(d: Dict, k: nat)
    requires IsDict(d) && k < |GetCartesianProduct(d)|
    ensures var c := GetCartesianProduct(d)[k];
      StrictlySorted(Names(c)) && |c| == |d| &&
      (forall k' :: k' in Names(c) <==> k' in Names(d)) &&
      forall i :: 0 <= i < |c| ==> Get(d, c[i].name).Some? && c[i].value in Candidates(Get(d, c[i].name).value)
  {
    var sorted := SortEntries(d);
    var c := GetCartesianProduct(d)[k];
    SortEntriesSorted(d);
    assert Names(c) == Names(sorted);
    forall k' ensures k' in Names(c) <==> k' in Names(d) {
      if k' in Names(c) { NameInMultiset(sorted, d, k'); }
      if k' in Names(d) { NameInMultiset(d, sorted, k'); }
    }
    forall i | 0 <= i < |c|
      ensures Get(d, c[i].name).Some? && c[i].value in Candidates(Get(d, c[i].name).value)
    {
      ProductMembers(CandidateLists(sorted), k, i);
      assert sorted[i] in multiset(d);
      var j :| 0 <= j < |d| && d[j] == sorted[i];
      GetOfDict(d, j);
    }
  }

  lemma GetOfDict(d: Dict, j: nat)
    requires IsDict(d) && j < |d|
    ensures Get(d, d[j].name) == Some(d[j].value)
  {
    if j > 0 {
      assert IsDict(d[1..]) by {
        forall a, b | 0 <= a < b < |d[1..]| ensures d[1..][a].name != d[1..][b].name {
          assert d[1..][a] == d[a + 1] && d[1..][b] == d[b + 1];
        }
      }
      GetOfDict(d[1..], j - 1);
    }
  }

  /**
   * The order of the product: the configuration that takes candidate `idx[j]`
   * for the j-th name in sorted order sits at position `Rank(idx)`, the last
   * name varying fastest.
   */
  lemma CartesianProductOrder(d: Dict, idx: seq<nat>)
    requires ValidPick(CandidateLists(SortEntries(d)), idx)
    ensures var ls := CandidateLists(SortEntries(d));
      Rank(ls, idx) < |GetCartesianProduct(d)| &&
      GetCartesianProduct(d)[Rank(ls, idx)] == Zip(Names(SortEntries(d)), Pick(ls, idx))
  {
    ProductAt(CandidateLists(SortEntries(d)), idx);
  }

  /** An empty group yields exactly one configuration: the empty dict. */
  lemma EmptyProduct()
    ensures GetCartesianProduct([]) == [[]]
  {
  }
}
