/** Adding up token usage in 64-bit counters that wrap around. */
module Usage {
  import opened Messages

  /** The 64-bit value that a sum is stored as. */
  function Wrap(x: int): Int64 {
    (x + 0x8000_0000_0000_0000) % 0x1_0000_0000_0000_0000 - 0x8000_0000_0000_0000
  }

  /** Wrapping a part of a sum first makes no difference. */
  lemma WrapPart(x: int, y: int)
    ensures Wrap(Wrap(x) + y) == Wrap(x + y)
  {
    var q := (x + 0x8000_0000_0000_0000) / 0x1_0000_0000_0000_0000;
    assert Wrap(x) == x - 0x1_0000_0000_0000_0000 * q;
  }

  const NoUsage := UsageDetails(0, 0, 0, 0, 0, None)

  function CountAt(m: Option<map<string, Int64>>, k: string): Int64 {
    if m.Some? && k in m.value then m.value[k] else 0
  }

  function AddCounts(a: Option<map<string, Int64>>, b: Option<map<string, Int64>>): Option<map<string, Int64>> {
    if b.None? then a
    else if a.None? then b
    else Some(map k | k in a.value.Keys + b.value.Keys :: Wrap(CountAt(a, k) + CountAt(b, k)))
  }

  /** Extra counters appear in a sum if and only if they appear in a part of it. */
  lemma AddedNames(a: Option<map<string, Int64>>, b: Option<map<string, Int64>>)
    ensures AddCounts(a, b).None? <==> a.None? && b.None?
    ensures AddCounts(a, b).Some? ==> forall k :: k in AddCounts(a, b).value <==> (a.Some? && k in a.value) || (b.Some? && k in b.value)
  {
  }

  function Add(u: UsageDetails, v: UsageDetails): UsageDetails {
    UsageDetails(Wrap(u.input + v.input), Wrap(u.output + v.output), Wrap(u.total + v.total),
                 Wrap(u.cached + v.cached), Wrap(u.reasoning + v.reasoning), AddCounts(u.additional, v.additional))
  }

  /** Adds up the extra counters one by one. They may be visited in any order. */
  method MergeCounts(counts: map<string, Int64>, more: map<string, Int64>) returns (sums: map<string, Int64>)
    ensures Some(sums) == AddCounts(Some(counts), Some(more))
  {
    sums := counts;
    var left := more.Keys;
    while left != {}
      invariant left <= more.Keys
      invariant sums.Keys == counts.Keys + (more.Keys - left)
      invariant forall k :: k in sums ==>
        sums[k] == if k in left then counts[k] else Wrap(CountAt(Some(counts), k) + CountAt(Some(more), k))
    {
      var k :| k in left;
      sums := sums[k := Wrap(CountAt(Some(sums), k) + more[k])];
      left := left - {k};
    }
    var both := AddCounts(Some(counts), Some(more)).value;
    assert sums.Keys == both.Keys;
    assert sums == both;
  }

  lemma NothingYet(more: map<string, Int64>)
    ensures AddCounts(Some(map[]), Some(more)) == Some(more)
  {
    var both := AddCounts(Some(map[]), Some(more)).value;
    assert both.Keys == more.Keys;
    assert both == more;
  }

  /** Accumulates one usage into another; the map of extra counters is made on first use. */
  method Accumulate(u: UsageDetails, v: UsageDetails) returns (sum: UsageDetails)
    ensures sum == Add(u, v)
  {
    hide Wrap;
    sum := u.(input := Wrap(u.input + v.input), output := Wrap(u.output + v.output),
              total := Wrap(u.total + v.total), cached := Wrap(u.cached + v.cached),
              reasoning := Wrap(u.reasoning + v.reasoning));
    if v.additional.Some? {
      var counts: map<string, Int64> := if sum.additional.Some? then sum.additional.value else map[];
      var merged := MergeCounts(counts, v.additional.value);
      if sum.additional.None? { NothingYet(v.additional.value); }
      sum := sum.(additional := Some(merged));
    }
  }

  function Total(us: seq<UsageDetails>): UsageDetails {
    if us == [] then NoUsage else Add(Total(us[..|us| - 1]), us[|us| - 1])
  }

  /** The counters of a usage, by name. */
  datatype Counter = Input | Output | Sum | Cached | Thinking | Named(name: string)

  function Count(u: UsageDetails, c: Counter): Int64 {
    match c
    case Input => u.input
    case Output => u.output
    case Sum => u.total
    case Cached => u.cached
    case Thinking => u.reasoning
    case Named(k) => CountAt(u.additional, k)
  }

  /** The exact sum of one counter over many usages. */
  function Exact(us: seq<UsageDetails>, c: Counter): int {
    if us == [] then 0 else Exact(us[..|us| - 1], c) + Count(us[|us| - 1], c)
  }

  /** Two usages are the same when they count the same under the same names. */
  lemma SameUsage(u: UsageDetails, v: UsageDetails)
    requires forall c :: Count(u, c) == Count(v, c)
    requires u.additional.Some? == v.additional.Some?
    requires u.additional.Some? ==> u.additional.value.Keys == v.additional.value.Keys
    ensures u == v
  {
    assert Count(u, Input) == Count(v, Input) && Count(u, Output) == Count(v, Output) && Count(u, Sum) == Count(v, Sum);
    assert Count(u, Cached) == Count(v, Cached) && Count(u, Thinking) == Count(v, Thinking);
    if u.additional.Some? {
      forall k | k in u.additional.value ensures u.additional.value[k] == v.additional.value[k] {
        assert Count(u, Named(k)) == Count(v, Named(k));
      }
      assert u.additional.value == v.additional.value;
    }
  }

  lemma AddCount(u: UsageDetails, v: UsageDetails, c: Counter)
    ensures Count(Add(u, v), c) == Wrap(Count(u, c) + Count(v, c))
  {
  }

  lemma AddCommutes(u: UsageDetails, v: UsageDetails)
    ensures Add(u, v) == Add(v, u)
  {
    forall c ensures Count(Add(u, v), c) == Count(Add(v, u), c) {
      AddCount(u, v, c);
      AddCount(v, u, c);
    }
    SameUsage(Add(u, v), Add(v, u));
  }

  lemma AddAssociates(u: UsageDetails, v: UsageDetails, w: UsageDetails)
    ensures Add(Add(u, v), w) == Add(u, Add(v, w))
  {
    hide Wrap;
    forall c ensures Count(Add(Add(u, v), w), c) == Count(Add(u, Add(v, w)), c) {
      WrapPart(Count(u, c) + Count(v, c), Count(w, c));
      WrapPart(Count(v, c) + Count(w, c), Count(u, c));
      AddCount(Add(u, v), w, c);
      AddCount(u, v, c);
      AddCount(u, Add(v, w), c);
      AddCount(v, w, c);
    }
    SameUsage(Add(Add(u, v), w), Add(u, Add(v, w)));
  }

  lemma AddNothing(u: UsageDetails)
    ensures Add(u, NoUsage) == u && Add(NoUsage, u) == u
  {
    AddCommutes(u, NoUsage);
  }

  lemma {:induction false} TotalConcat(a: seq<UsageDetails>, b: seq<UsageDetails>)
    ensures Total(a + b) == Add(Total(a), Total(b))
  {
    if b == [] {
      assert a + b == a;
      AddNothing(Total(a));
    } else {
      TotalConcat(a, b[..|b| - 1]);
      assert (a + b)[..|a + b| - 1] == a + b[..|b| - 1];
      AddAssociates(Total(a), Total(b[..|b| - 1]), b[|b| - 1]);
    }
  }

  lemma TotalOne(u: UsageDetails)
    ensures Total([u]) == u
  {
    assert [u][..0] == [];
    AddNothing(u);
  }

  /** However often a running total wraps around, it ends as the wrapped exact sum. */
  lemma {:induction false} TotalIsExact(us: seq<UsageDetails>, c: Counter)
    ensures Count(Total(us), c) == Wrap(Exact(us, c))
  {
    if us != [] {
      var init, last := us[..|us| - 1], us[|us| - 1];
      assert Total(us) == Add(Total(init), last) && Exact(us, c) == Exact(init, c) + Count(last, c);
      TotalIsExact(init, c);
      hide Wrap, Total, Exact, Add, Count;
      AddCount(Total(init), last, c);
      WrapPart(Exact(init, c), Count(last, c));
    } else {
      assert Count(NoUsage, c) == 0;
    }
  }

  /** The order of the usages does not matter. */
  lemma TotalCommutes(a: seq<UsageDetails>, b: seq<UsageDetails>)
    ensures Total(a + b) == Total(b + a)
  {
    TotalConcat(a, b);
    TotalConcat(b, a);
    AddCommutes(Total(a), Total(b));
  }
}
