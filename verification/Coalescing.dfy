/** Merging runs of content items: the in-place loop and the run-by-run specification. */
module Coalescing {
  import opened Messages

  /** One coalescing pass: which items it looks at, which neighbours merge, and how. */
  datatype Pass = Pass(
    fits: Content -> bool, canMerge: (Content, Content) -> bool, merge: seq<Content> -> Content, mergeSingle: bool)

  ghost predicate Lawful(p: Pass) {
    !p.fits(Absent) && forall xs :: !p.merge(xs).Absent?
  }

  /** Length of the longest mergeable run at the front. */
  function RunLength(s: seq<Content>, p: Pass): (r: nat)
    requires s != []
    ensures 1 <= r <= |s|
  {
    if |s| > 1 && p.fits(s[1]) && p.canMerge(s[0], s[1]) then 1 + RunLength(s[1..], p) else 1
  }

  /** A list of items that merge one after the other. */
  ghost predicate IsRun(xs: seq<Content>, p: Pass) {
    && xs != []
    && (forall i :: 0 <= i < |xs| ==> p.fits(xs[i]))
    && (forall i :: 0 < i < |xs| ==> p.canMerge(xs[i - 1], xs[i]))
  }

  /** The run at the front is one, and it cannot be made longer. */
  lemma {:induction false} RunIsMaximal(s: seq<Content>, p: Pass)
    requires s != [] && p.fits(s[0])
    ensures var r := RunLength(s, p);
      && IsRun(s[..r], p)
      && (r < |s| ==> !(p.fits(s[r]) && p.canMerge(s[r - 1], s[r])))
  {
    var r := RunLength(s, p);
    if r > 1 {
      RunIsMaximal(s[1..], p);
      assert s[..r][1..] == s[1..][..r - 1];
      forall i | 0 <= i < r ensures p.fits(s[..r][i]) {
        if i > 0 { assert s[..r][i] == s[1..][..r - 1][i - 1]; }
      }
      forall i | 0 < i < r ensures p.canMerge(s[..r][i - 1], s[..r][i]) {
        if i > 1 {
          assert s[..r][i] == s[1..][..r - 1][i - 1] && s[..r][i - 1] == s[1..][..r - 1][i - 2];
        }
      }
    }
  }

  /** What one run becomes. */
  function RunResult(xs: seq<Content>, p: Pass): Content
    requires xs != []
  {
    if |xs| == 1 && !p.mergeSingle then xs[0] else p.merge(xs)
  }

  /** Split into maximal runs, replace each run by its merge, drop nil entries. */
  function Merged(s: seq<Content>, p: Pass): seq<Content>
    decreases |s|
  {
    if s == [] then []
    else if !p.fits(s[0]) then (if s[0].Absent? then [] else [s[0]]) + Merged(s[1..], p)
    else [RunResult(s[..RunLength(s, p)], p)] + Merged(s[RunLength(s, p)..], p)
  }

  // ---------------------------------------------------------------- the in-place loop

  function Dense(s: seq<Content>): seq<Content> {
    if s == [] then [] else Dense(s[..|s| - 1]) + if s[|s| - 1].Absent? then [] else [s[|s| - 1]]
  }

  lemma {:induction false} DenseConcat(a: seq<Content>, b: seq<Content>)
    ensures Dense(a + b) == Dense(a) + Dense(b)
  {
    if b == [] {
      assert a + b == a;
    } else {
      DenseConcat(a, b[..|b| - 1]);
      assert (a + b)[..|a + b| - 1] == a + b[..|b| - 1];
    }
  }

  lemma {:induction false} DenseAbsent(s: seq<Content>)
    requires forall i :: 0 <= i < |s| ==> s[i].Absent?
    ensures Dense(s) == []
  {
    if s != [] { DenseAbsent(s[..|s| - 1]); }
  }

  lemma DenseOne(c: Content)
    ensures Dense([c]) == if c.Absent? then [] else [c]
  {
    assert [c][..0] == [];
  }

  /** Removes the nil entries of the first `n` places and clears what is left behind. */
  method DeleteAbsent(a: array<Content>, n: nat) returns (m: nat)
    requires n <= a.Length
    modifies a
    ensures m <= n && a[..m] == Dense(old(a[..n]))
    ensures forall i :: m <= i < n ==> a[i].Absent?
    ensures a[n..] == old(a[n..])
  {
    ghost var s := a[..n];
    m := 0;
    for i := 0 to n
      invariant m <= i && a[..m] == Dense(s[..i])
      invariant forall k :: i <= k < a.Length ==> a[k] == old(a[k])
    {
      assert s[..i + 1][..i] == s[..i];
      if !a[i].Absent? {
        a[m] := a[i];
        m := m + 1;
      }
    }
    assert s[..n] == s;
    for i := m to n
      invariant a[..m] == Dense(s) && a[n..] == old(a[n..])
      invariant forall k :: m <= k < i ==> a[k].Absent?
    {
      a[i] := Absent;
    }
  }

  /** The end of the run that starts at `start`. */
  method FindRunEnd(a: array<Content>, n: nat, start: nat, p: Pass) returns (i: nat)
    requires start < n <= a.Length && p.fits(a[start])
    ensures i == start + RunLength(a[start..n], p)
  {
    hide RunLength;
    i := start + 1;
    var prev := a[start];
    ghost var s := a[..n];
    assert a[start..n] == s[start..];
    while i < n
      invariant start < i <= n && prev == s[i - 1]
      invariant i - 1 + RunLength(s[i - 1..], p) == start + RunLength(s[start..], p)
    {
      var next := a[i];
      RunFurther(s, i, p);
      if !p.fits(next) || !p.canMerge(prev, next) { break; }
      i := i + 1;
      prev := next;
    }
    if i == n { RunFurther(s, n, p); }
  }

  lemma RunFurther(s: seq<Content>, i: nat, p: Pass)
    requires 0 < i <= |s|
    ensures RunLength(s[i - 1..], p)
         == if i < |s| && p.fits(s[i]) && p.canMerge(s[i - 1], s[i]) then 1 + RunLength(s[i..], p) else 1
  {
    assert s[i - 1..][1..] == s[i..];
  }

  /** Stores a merge at the start of its run and makes the rest of the run nil. */
  method StoreRun(a: array<Content>, start: nat, i: nat, merged: Content)
    requires start < i <= a.Length
    modifies a
    ensures a[..start] == old(a[..start]) && a[start] == merged
    ensures forall k :: start < k < i ==> a[k].Absent?
    ensures forall k :: i <= k < a.Length ==> a[k] == old(a[k])
  {
    a[start] := merged;
    var j := start + 1;
    while j < i
      invariant start < j <= i
      invariant a[..start] == old(a[..start]) && a[start] == merged
      invariant forall k :: start < k < j ==> a[k].Absent?
      invariant forall k :: j <= k < a.Length ==> a[k] == old(a[k])
    {
      a[j] := Absent;
      j := j + 1;
    }
  }

  /** Coalesces the first `n` places in place: merges are stored at the start of each run, the
      rest of the run becomes nil, and all nil entries are deleted at the end. */
  method CoalesceRuns(a: array<Content>, n: nat, p: Pass) returns (m: nat)
    requires n <= a.Length && Lawful(p)
    modifies a
    ensures m <= n && a[..m] == Merged(old(a[..n]), p)
    ensures forall i :: m <= i < n ==> a[i].Absent?
    ensures a[n..] == old(a[n..])
  {
    hide Merged, Dense, RunLength;
    ghost var s := a[..n];
    var start := 0;
    NothingDone(s, p);
    while start < n
      invariant start <= n
      invariant forall k :: start <= k < a.Length ==> a[k] == old(a[k])
      invariant Progress(s, start, p, a[..start])
    {
      ghost var before := a[..start];
      assert a[start] == s[start];
      assert a[..start + 1] == before + [s[start]];
      if !p.fits(a[start]) {
        AdvanceOver(s, start, p, before);
        start := start + 1;
      } else {
        assert a[start..n] == s[start..];
        var i := FindRunEnd(a, n, start, p);
        assert i == start + RunLength(s[start..], p);
        if i == start + 1 && !p.mergeSingle {
          AdvanceSingle(s, start, p, before);
        } else {
          assert a[start..i] == a[start..n][..i - start] && s[start..i] == s[start..][..i - start];
          StoreRun(a, start, i, p.merge(a[start..i]));
          ghost var tail := a[start + 1..i];
          assert forall k :: 0 <= k < |tail| ==> tail[k].Absent?;
          assert a[..i] == before + ([a[start]] + tail);
          AdvanceRun(s, start, i, p, before, tail);
        }
        start := i;
      }
    }
    AllDone(s, p, a[..n]);
    m := DeleteAbsent(a, n);
  }

  /** The places before `start`, nil entries apart, hold what merging gives for them. */
  ghost predicate Progress(s: seq<Content>, start: nat, p: Pass, before: seq<Content>) {
    start <= |s| && Merged(s, p) == Dense(before) + Merged(s[start..], p)
  }

  lemma NothingDone(s: seq<Content>, p: Pass)
    ensures Progress(s, 0, p, [])
  {
    assert s[0..] == s;
  }

  lemma AllDone(s: seq<Content>, p: Pass, a: seq<Content>)
    requires Progress(s, |s|, p, a)
    ensures Dense(a) == Merged(s, p)
  {
  }

  lemma AdvanceOver(s: seq<Content>, start: nat, p: Pass, before: seq<Content>)
    requires start < |s| && !p.fits(s[start]) && Progress(s, start, p, before)
    ensures Progress(s, start + 1, p, before + [s[start]])
  {
    DenseConcat(before, [s[start]]);
    DenseOne(s[start]);
    assert s[start..][1..] == s[start + 1..];
  }

  lemma MergedStep(s: seq<Content>, start: nat, i: nat, p: Pass)
    requires start < |s| && p.fits(s[start]) && i == start + RunLength(s[start..], p)
    ensures Merged(s[start..], p) == [RunResult(s[start..i], p)] + Merged(s[i..], p)
  {
    assert s[start..][..i - start] == s[start..i] && s[start..][i - start..] == s[i..];
  }

  lemma AdvanceSingle(s: seq<Content>, start: nat, p: Pass, before: seq<Content>)
    requires start < |s| && p.fits(s[start]) && RunLength(s[start..], p) == 1 && !p.mergeSingle && Lawful(p)
    requires Progress(s, start, p, before)
    ensures Progress(s, start + 1, p, before + [s[start]])
  {
    hide Merged, Dense, RunLength;
    MergedStep(s, start, start + 1, p);
    DenseConcat(before, [s[start]]);
    DenseOne(s[start]);
    assert s[start..start + 1] == [s[start]];
  }

  lemma AdvanceRun(s: seq<Content>, start: nat, i: nat, p: Pass, before: seq<Content>, tail: seq<Content>)
    requires start < |s| && p.fits(s[start]) && i == start + RunLength(s[start..], p) && Lawful(p)
    requires i > start + 1 || p.mergeSingle
    requires Progress(s, start, p, before) && forall k :: 0 <= k < |tail| ==> tail[k].Absent?
    ensures Progress(s, i, p, before + ([p.merge(s[start..i])] + tail))
  {
    hide Merged, Dense, RunLength;
    var merged := p.merge(s[start..i]);
    MergedStep(s, start, i, p);
    DenseConcat(before, [merged] + tail);
    DenseConcat([merged], tail);
    DenseAbsent(tail);
    DenseOne(merged);
    assert Dense(before + ([merged] + tail)) == Dense(before) + [merged];
    assert Dense(before) + ([merged] + Merged(s[i..], p)) == Dense(before) + [merged] + Merged(s[i..], p);
  }
}
