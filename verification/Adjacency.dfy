/** Which items become neighbours when passes over a list delete and merge others. */
module Adjacency {
  import opened Messages
  import opened Coalescing
  import opened Contents

  /** What an item is collected by: whether it is an image result, and its call ID. */
  type Key = (bool, string)

  type Keys = Content -> Option<Key>

  function NoKey(c: Content): Option<Key> { None }

  function CallKey(c: Content): Option<Key> {
    if c.ImageResult? then Some((true, c.callId)) else if c.WebSearchCall? then Some((false, c.callId)) else None
  }

  /** Items that a pass merges if they come together: `fits` says which, `open` which of them
      merge with their successor. `counts` says which deleted items part them before that. */
  datatype Watch = Watch(key: Keys, fits: Content -> bool, open: Content -> bool, counts: Content -> bool)

  ghost predicate Proper(w: Watch) {
    !w.fits(Absent) && w.key(Absent).None? && forall c :: w.fits(c) ==> w.key(c).None?
  }

  /** The item at `k` will be deleted: it is nil, or an earlier item has its key. */
  ghost predicate Vanishes(s: seq<Content>, k: nat, key: Keys)
    requires k < |s|
  {
    s[k].Absent? || (key(s[k]).Some? && exists j :: 0 <= j < k && key(s[j]) == key(s[k]))
  }

  /** Two items that would merge stand with nothing between them but items to be deleted, and
      one of these has kept them from merging. */
  ghost predicate Parted(s: seq<Content>, w: Watch) {
    exists i: nat, j: nat :: i < j < |s| && PartedAt(s, w, i, j)
  }

  ghost predicate PartedAt(s: seq<Content>, w: Watch, i: nat, j: nat)
    requires i < j < |s|
  {
    && w.fits(s[i]) && w.open(s[i]) && w.fits(s[j])
    && (forall k: nat :: i < k < j ==> Vanishes(s, k, w.key))
    && (exists k: nat :: i < k < j && w.counts(s[k]))
  }

  // ---------------------------------------------------------------- scanning for parted items

  predicate Gone(c: Content, seen: set<Key>, key: Keys) {
    c.Absent? || (key(c).Some? && key(c).value in seen)
  }

  function See(c: Content, seen: set<Key>, key: Keys): set<Key> {
    if key(c).Some? then seen + {key(c).value} else seen
  }

  /** The list without the items to be deleted. */
  function Drop(s: seq<Content>, seen: set<Key>, key: Keys): seq<Content> {
    if s == [] then []
    else (if Gone(s[0], seen, key) then [] else [s[0]]) + Drop(s[1..], See(s[0], seen, key), key)
  }

  /** The scan from left to right: `ready` says whether the last item kept is open, and `gap`
      whether something that counts was deleted since. */
  predicate Splits(s: seq<Content>, seen: set<Key>, w: Watch, ready: bool, gap: bool) {
    if s == [] then false
    else if Gone(s[0], seen, w.key) then
      Splits(s[1..], See(s[0], seen, w.key), w, ready, gap || w.counts(s[0]))
    else
      || (ready && gap && w.fits(s[0]))
      || Splits(s[1..], See(s[0], seen, w.key), w, w.fits(s[0]) && w.open(s[0]), false)
  }

  ghost predicate VanishesAfter(s: seq<Content>, k: nat, seen: set<Key>, key: Keys)
    requires k < |s|
  {
    Vanishes(s, k, key) || Gone(s[k], seen, key)
  }

  ghost predicate SplitsAt(s: seq<Content>, seen: set<Key>, w: Watch, gap: bool, j: nat)
    requires j < |s|
  {
    && w.fits(s[j])
    && (forall k: nat :: k < j ==> VanishesAfter(s, k, seen, w.key))
    && (gap || exists k: nat :: k < j && w.counts(s[k]))
  }

  ghost predicate PartedAfter(s: seq<Content>, seen: set<Key>, w: Watch, i: nat, j: nat)
    requires i < j < |s|
  {
    && w.fits(s[i]) && w.open(s[i]) && w.fits(s[j])
    && (forall k: nat :: i < k < j ==> VanishesAfter(s, k, seen, w.key))
    && (exists k: nat :: i < k < j && w.counts(s[k]))
  }

  lemma VanishesShift(s: seq<Content>, k: nat, seen: set<Key>, key: Keys)
    requires k + 1 < |s|
    ensures VanishesAfter(s, k + 1, seen, key) <==> VanishesAfter(s[1..], k, See(s[0], seen, key), key)
  {
    var rest := s[1..];
    assert s[k + 1] == rest[k];
    if key(rest[k]).Some? {
      if j :| 0 <= j < k && key(rest[j]) == key(rest[k]) { assert key(s[j + 1]) == key(s[k + 1]); }
      if j :| 0 <= j < k + 1 && key(s[j]) == key(s[k + 1]) {
        if j > 0 { assert key(rest[j - 1]) == key(rest[k]); }
      }
    }
  }

  /** The first item kept that the scan looks at. */
  lemma SplitsAtShift(s: seq<Content>, seen: set<Key>, w: Watch, gap: bool, j: nat)
    requires j + 1 < |s| && Gone(s[0], seen, w.key)
    ensures SplitsAt(s, seen, w, gap, j + 1)
       <==> SplitsAt(s[1..], See(s[0], seen, w.key), w, gap || w.counts(s[0]), j)
  {
    var rest, seen' := s[1..], See(s[0], seen, w.key);
    forall k: nat | k < j ensures VanishesAfter(s, k + 1, seen, w.key) <==> VanishesAfter(rest, k, seen', w.key) {
      VanishesShift(s, k, seen, w.key);
    }
    if SplitsAt(s, seen, w, gap, j + 1) {
      forall k: nat | k < j ensures VanishesAfter(rest, k, seen', w.key) { assert VanishesAfter(s, k + 1, seen, w.key); }
      if !(gap || w.counts(s[0])) {
        var k: nat :| k < j + 1 && w.counts(s[k]);
        assert w.counts(rest[k - 1]);
      }
    }
    if SplitsAt(rest, seen', w, gap || w.counts(s[0]), j) {
      forall k: nat | k < j + 1 ensures VanishesAfter(s, k, seen, w.key) {
        if k > 0 { assert VanishesAfter(rest, k - 1, seen', w.key); }
      }
      if !gap && !w.counts(s[0]) {
        var k: nat :| k < j && w.counts(rest[k]);
        assert w.counts(s[k + 1]);
      }
    }
  }

  lemma PartedShift(s: seq<Content>, seen: set<Key>, w: Watch, i: nat, j: nat)
    requires i < j && j + 1 < |s|
    ensures PartedAfter(s, seen, w, i + 1, j + 1) <==> PartedAfter(s[1..], See(s[0], seen, w.key), w, i, j)
  {
    var rest, seen' := s[1..], See(s[0], seen, w.key);
    forall k: nat | k < j ensures VanishesAfter(s, k + 1, seen, w.key) <==> VanishesAfter(rest, k, seen', w.key) {
      VanishesShift(s, k, seen, w.key);
    }
    if PartedAfter(s, seen, w, i + 1, j + 1) {
      forall k: nat | i < k < j ensures VanishesAfter(rest, k, seen', w.key) { assert VanishesAfter(s, k + 1, seen, w.key); }
      var k: nat :| i + 1 < k < j + 1 && w.counts(s[k]);
      assert w.counts(rest[k - 1]);
    }
    if PartedAfter(rest, seen', w, i, j) {
      forall k: nat | i + 1 < k < j + 1 ensures VanishesAfter(s, k, seen, w.key) { assert VanishesAfter(rest, k - 1, seen', w.key); }
      var k: nat :| i < k < j && w.counts(rest[k]);
      assert w.counts(s[k + 1]);
    }
  }

  /** An item that is kept and open parts from a later one as the scan of the rest finds. */
  lemma PartedFirst(s: seq<Content>, seen: set<Key>, w: Watch, j: nat)
    requires 0 < j < |s| && w.fits(s[0]) && w.open(s[0]) && Proper(w)
    ensures PartedAfter(s, seen, w, 0, j) <==> SplitsAt(s[1..], See(s[0], seen, w.key), w, false, j - 1)
  {
    var rest, seen' := s[1..], See(s[0], seen, w.key);
    forall k: nat | k < j - 1 ensures VanishesAfter(s, k + 1, seen, w.key) <==> VanishesAfter(rest, k, seen', w.key) {
      VanishesShift(s, k, seen, w.key);
    }
    if PartedAfter(s, seen, w, 0, j) {
      forall k: nat | k < j - 1 ensures VanishesAfter(rest, k, seen', w.key) { assert VanishesAfter(s, k + 1, seen, w.key); }
      var k: nat :| 0 < k < j && w.counts(s[k]);
      assert w.counts(rest[k - 1]);
    }
    if SplitsAt(rest, seen', w, false, j - 1) {
      forall k: nat | 0 < k < j ensures VanishesAfter(s, k, seen, w.key) { assert VanishesAfter(rest, k - 1, seen', w.key); }
      var k: nat :| k < j - 1 && w.counts(rest[k]);
      assert w.counts(s[k + 1]);
    }
  }

  ghost predicate SomeSplit(s: seq<Content>, seen: set<Key>, w: Watch, gap: bool) {
    exists j: nat :: j < |s| && SplitsAt(s, seen, w, gap, j)
  }

  ghost predicate SomeParted(s: seq<Content>, seen: set<Key>, w: Watch) {
    exists i: nat, j: nat :: i < j < |s| && PartedAfter(s, seen, w, i, j)
  }

  /** What one item at the front adds to the two. */
  lemma SplitStep(s: seq<Content>, seen: set<Key>, w: Watch, gap: bool)
    requires s != [] && Proper(w)
    ensures var rest, seen' := s[1..], See(s[0], seen, w.key);
      SomeSplit(s, seen, w, gap)
      <==> if Gone(s[0], seen, w.key) then SomeSplit(rest, seen', w, gap || w.counts(s[0])) else gap && w.fits(s[0])
  {
    var rest, seen' := s[1..], See(s[0], seen, w.key);
    var gap' := gap || w.counts(s[0]);
    if Gone(s[0], seen, w.key) {
      if j: nat :| j < |s| && SplitsAt(s, seen, w, gap, j) {
        assert j > 0;
        SplitsAtShift(s, seen, w, gap, j - 1);
      }
      if j: nat :| j < |rest| && SplitsAt(rest, seen', w, gap', j) {
        SplitsAtShift(s, seen, w, gap, j);
        assert SplitsAt(s, seen, w, gap, j + 1);
      }
    } else {
      assert !VanishesAfter(s, 0, seen, w.key);
      if gap && w.fits(s[0]) { assert SplitsAt(s, seen, w, gap, 0); }
    }
  }

  lemma PartedStep(s: seq<Content>, seen: set<Key>, w: Watch)
    requires s != [] && Proper(w)
    ensures var rest, seen' := s[1..], See(s[0], seen, w.key);
      SomeParted(s, seen, w) <==> SomeParted(rest, seen', w) || (w.fits(s[0]) && w.open(s[0]) && SomeSplit(rest, seen', w, false))
  {
    hide VanishesAfter, Vanishes, SplitsAt, Gone, See;
    var rest, seen' := s[1..], See(s[0], seen, w.key);
    if i: nat, j: nat :| i < j < |s| && PartedAfter(s, seen, w, i, j) {
      if i > 0 {
        PartedShift(s, seen, w, i - 1, j - 1);
        assert PartedAfter(rest, seen', w, i - 1, j - 1);
      } else {
        PartedFirst(s, seen, w, j);
        assert SplitsAt(rest, seen', w, false, j - 1);
      }
    }
    if i: nat, j: nat :| i < j < |rest| && PartedAfter(rest, seen', w, i, j) {
      PartedShift(s, seen, w, i, j);
      assert PartedAfter(s, seen, w, i + 1, j + 1);
    }
    if w.fits(s[0]) && w.open(s[0]) && SomeSplit(rest, seen', w, false) {
      var j: nat :| j < |rest| && SplitsAt(rest, seen', w, false, j);
      PartedFirst(s, seen, w, j + 1);
      assert PartedAfter(s, seen, w, 0, j + 1);
    }
  }

  lemma {:induction false} SplitsIs(s: seq<Content>, seen: set<Key>, w: Watch, ready: bool, gap: bool)
    requires Proper(w)
    ensures Splits(s, seen, w, ready, gap) <==> (ready && SomeSplit(s, seen, w, gap)) || SomeParted(s, seen, w)
  {
    if s != [] {
      var rest, seen' := s[1..], See(s[0], seen, w.key);
      hide SomeSplit, SomeParted;
      SplitStep(s, seen, w, gap);
      PartedStep(s, seen, w);
      if Gone(s[0], seen, w.key) {
        SplitsIs(rest, seen', w, ready, gap || w.counts(s[0]));
      } else {
        SplitsIs(rest, seen', w, w.fits(s[0]) && w.open(s[0]), false);
      }
    }
  }

  /** The scan finds exactly the parted items. */
  lemma SplitsIsParted(s: seq<Content>, w: Watch)
    requires Proper(w)
    ensures Splits(s, {}, w, false, false) <==> Parted(s, w)
  {
    SplitsIs(s, {}, w, false, false);
    forall i: nat, j: nat | i < j < |s| ensures PartedAfter(s, {}, w, i, j) <==> PartedAt(s, w, i, j) {
      assert forall k: nat :: k < |s| ==> (VanishesAfter(s, k, {}, w.key) <==> Vanishes(s, k, w.key));
    }
  }

  // ---------------------------------------------------------------- neighbours that merge

  /** Some item merges with its successor; `prev` stands before the list. */
  predicate Meets(prev: Content, s: seq<Content>, p: Pass)
    decreases |s|
  {
    s != [] && ((p.fits(prev) && p.fits(s[0]) && p.canMerge(prev, s[0])) || Meets(s[0], s[1..], p))
  }

  lemma {:induction false} MeetsIs(prev: Content, s: seq<Content>, p: Pass)
    ensures var all := [prev] + s;
      Meets(prev, s, p) <==> exists i :: 0 < i < |all| && p.fits(all[i - 1]) && p.fits(all[i]) && p.canMerge(all[i - 1], all[i])
    decreases |s|
  {
    var all := [prev] + s;
    if s != [] {
      MeetsIs(s[0], s[1..], p);
      assert [s[0]] + s[1..] == s;
      if p.fits(prev) && p.fits(s[0]) && p.canMerge(prev, s[0]) { assert all[0] == prev && all[1] == s[0]; }
      forall i | 0 < i < |s| ensures all[i] == s[i - 1] && all[i + 1] == s[i] {
      }
      if i :| 0 < i < |s| && p.fits(s[i - 1]) && p.fits(s[i]) && p.canMerge(s[i - 1], s[i]) {
        assert p.fits(all[i]) && p.fits(all[i + 1]) && p.canMerge(all[i], all[i + 1]) && 0 < i + 1 < |all| && all[i + 1 - 1] == all[i];
      }
      if i :| 0 < i < |all| && p.fits(all[i - 1]) && p.fits(all[i]) && p.canMerge(all[i - 1], all[i]) {
        if i > 1 { assert p.fits(s[i - 2]) && p.fits(s[i - 1]) && p.canMerge(s[i - 2], s[i - 1]) && 0 < i - 1 < |s| && s[i - 1 - 1] == s[i - 2]; }
      }
    }
  }

  lemma SettledIsMeets(s: seq<Content>, p: Pass)
    requires Lawful(p)
    ensures Settled(s, p) <==> NoAbsent(s) && !Meets(Absent, s, p)
  {
    MeetsIs(Absent, s, p);
    var all := [Absent] + s;
    forall i | 0 < i < |s| ensures all[i] == s[i - 1] && all[i + 1] == s[i] {
    }
    if !Settled(s, p) && NoAbsent(s) {
      var i :| 0 < i < |s| && p.fits(s[i - 1]) && p.fits(s[i]) && p.canMerge(s[i - 1], s[i]);
      assert 0 < i + 1 < |all| && p.fits(all[i + 1 - 1]) && p.fits(all[i + 1]) && p.canMerge(all[i + 1 - 1], all[i + 1]);
    }
    if i :| 0 < i < |all| && p.fits(all[i - 1]) && p.fits(all[i]) && p.canMerge(all[i - 1], all[i]) {
      assert i > 1;
      assert all[i - 1] == s[i - 2] && all[i] == s[i - 1];
      assert !(0 < i - 1 < |s| ==> !(p.fits(s[i - 1 - 1]) && p.fits(s[i - 1]) && p.canMerge(s[i - 1 - 1], s[i - 1])));
    }
  }

  /** A pass whose items merge with their successors by themselves, and what to watch for it. */
  ghost predicate Watches(w: Watch, p: Pass) {
    && Proper(w) && Lawful(p) && !p.mergeSingle
    && (forall c :: w.fits(c) == p.fits(c))
    && (forall a, b :: p.canMerge(a, b) == w.open(a))
    && (forall xs :: IsRun(xs, p) ==> p.fits(p.merge(xs)) && w.open(p.merge(xs)) == w.open(xs[|xs| - 1]))
  }

  /** Along a run nothing parts. */
  lemma {:induction false} SplitsRun(s: seq<Content>, r: nat, seen: set<Key>, w: Watch, ready: bool, gap: bool)
    requires 1 <= r <= |s| && Proper(w) && forall i :: 0 <= i < r ==> w.fits(s[i])
    ensures Splits(s, seen, w, ready, gap) <==> (ready && gap) || Splits(s[r..], seen, w, w.open(s[r - 1]), false)
  {
    assert !Gone(s[0], seen, w.key) && See(s[0], seen, w.key) == seen;
    if r > 1 {
      SplitsRun(s[1..], r - 1, seen, w, w.open(s[0]), false);
      assert s[1..][r - 1..] == s[r..];
    }
  }

  /** After the pass and the deletions, two items that would merge stand next to each other if
      and only if the scan of the list before finds them parted. */
  lemma {:induction false} MeetsIsSplits(prev: Content, s: seq<Content>, seen: set<Key>, w: Watch, p: Pass, ready: bool, gap: bool)
    requires Watches(w, p) && ready == (p.fits(prev) && w.open(prev))
    requires ready && !gap ==> s == [] || !p.fits(s[0])
    requires forall c :: c in s ==> w.counts(c)
    ensures Meets(prev, Drop(Merged(s, p), seen, w.key), p) <==> Splits(s, seen, w, ready, gap)
    decreases |s|
  {
    if s == [] {
    } else if !p.fits(s[0]) {
      assert s[0] in s && forall c :: c in s[1..] ==> c in s;
      if Gone(s[0], seen, w.key) {
        MeetsIsSplits(prev, s[1..], See(s[0], seen, w.key), w, p, ready, true);
      } else {
        MeetsIsSplits(s[0], s[1..], See(s[0], seen, w.key), w, p, false, false);
      }
      MeetsSkip(prev, s, seen, w, p, ready, gap);
    } else {
      var r := RunLength(s, p);
      RunIsMaximal(s, p);
      RunOpens(s, r, w, p);
      assert forall c :: c in s[r..] ==> c in s;
      var m := RunResult(s[..r], p);
      MeetsIsSplits(m, s[r..], seen, w, p, w.open(m), false);
      MeetsOver(prev, s, seen, w, p, ready, gap);
    }
  }

  lemma MeetsSkip(prev: Content, s: seq<Content>, seen: set<Key>, w: Watch, p: Pass, ready: bool, gap: bool)
    requires Watches(w, p) && s != [] && !p.fits(s[0]) && w.counts(s[0])
    requires var seen', rest := See(s[0], seen, w.key), Merged(s[1..], p);
      if Gone(s[0], seen, w.key) then Meets(prev, Drop(rest, seen', w.key), p) <==> Splits(s[1..], seen', w, ready, true)
      else Meets(s[0], Drop(rest, seen', w.key), p) <==> Splits(s[1..], seen', w, false, false)
    ensures Meets(prev, Drop(Merged(s, p), seen, w.key), p) <==> Splits(s, seen, w, ready, gap)
  {
    var seen', rest := See(s[0], seen, w.key), Merged(s[1..], p);
    assert s[0].Absent? ==> seen' == seen;
    assert !w.fits(s[0]);
    assert Splits(s, seen, w, ready, gap)
      == if Gone(s[0], seen, w.key) then Splits(s[1..], seen', w, ready, true) else Splits(s[1..], seen', w, false, false);
    MergedFirst(s, p);
    assert s[0].Absent? ==> Gone(s[0], seen, w.key);
    hide *;
    if !s[0].Absent? {
      DropFirst(s[0], rest, seen, w.key);
      if !Gone(s[0], seen, w.key) { MeetsFirst(prev, s[0], Drop(rest, seen', w.key), p); }
    }
  }

  lemma MeetsOver(prev: Content, s: seq<Content>, seen: set<Key>, w: Watch, p: Pass, ready: bool, gap: bool)
    requires Watches(w, p) && s != [] && p.fits(s[0]) && ready == (p.fits(prev) && w.open(prev)) && (ready ==> gap)
    requires var r := RunLength(s, p);
      var m := RunResult(s[..r], p);
      Meets(m, Drop(Merged(s[r..], p), seen, w.key), p) <==> Splits(s[r..], seen, w, w.open(m), false)
    ensures Meets(prev, Drop(Merged(s, p), seen, w.key), p) <==> Splits(s, seen, w, ready, gap)
  {
    var r := RunLength(s, p);
    var m, rest := RunResult(s[..r], p), Merged(s[r..], p);
    RunIsMaximal(s, p);
    RunOpens(s, r, w, p);
    assert Merged(s, p) == [m] + rest by { MergedStep(s, 0, r, p); assert s[0..] == s && s[0..r] == s[..r]; }
    assert !Gone(m, seen, w.key) && See(m, seen, w.key) == seen;
    assert p.canMerge(prev, m) == w.open(prev) && Proper(w);
    hide *;
    DropFirst(m, rest, seen, w.key);
    SplitsRun(s, r, seen, w, ready, gap);
    MeetsFirst(prev, m, Drop(rest, seen, w.key), p);
  }

  lemma MergedFirst(s: seq<Content>, p: Pass)
    requires s != [] && !p.fits(s[0])
    ensures Merged(s, p) == if s[0].Absent? then Merged(s[1..], p) else [s[0]] + Merged(s[1..], p)
  {
  }

  lemma MeetsFirst(prev: Content, c: Content, rest: seq<Content>, p: Pass)
    ensures Meets(prev, [c] + rest, p) <==> (p.fits(prev) && p.fits(c) && p.canMerge(prev, c)) || Meets(c, rest, p)
  {
    assert ([c] + rest)[1..] == rest;
  }

  lemma RunOpens(s: seq<Content>, r: nat, w: Watch, p: Pass)
    requires Watches(w, p) && 1 <= r <= |s| && IsRun(s[..r], p)
    ensures var m := RunResult(s[..r], p); p.fits(m) && w.open(m) == w.open(s[r - 1]) && w.key(m).None? && !m.Absent?
    ensures forall i :: 0 <= i < r ==> w.fits(s[i])
  {
    assert s[..r][r - 1] == s[r - 1];
    forall i | 0 <= i < r ensures w.fits(s[i]) { assert s[..r][i] == s[i]; }
  }

  lemma DropFirst(c: Content, rest: seq<Content>, seen: set<Key>, key: Keys)
    ensures Drop([c] + rest, seen, key)
         == if Gone(c, seen, key) then Drop(rest, See(c, seen, key), key) else [c] + Drop(rest, See(c, seen, key), key)
  {
    assert ([c] + rest)[1..] == rest;
  }

  lemma DropStep(s: seq<Content>, seen: set<Key>, key: Keys)
    requires s != []
    ensures Drop(s, seen, key)
         == if Gone(s[0], seen, key) then Drop(s[1..], See(s[0], seen, key), key)
            else [s[0]] + Drop(s[1..], See(s[0], seen, key), key)
  {
  }

  // ---------------------------------------------------------------- passes over other items

  /** The list with everything else than the relevant items blurred to one mark. */
  function Blur(s: seq<Content>, relevant: Content -> bool): seq<Content> {
    if s == [] then []
    else BlurFirst(s[0], Blur(s[1..], relevant), relevant)
  }

  function BlurFirst(c: Content, rest: seq<Content>, relevant: Content -> bool): seq<Content> {
    if relevant(c) then [c] + rest
    else if rest != [] && rest[0].Absent? then rest
    else [Absent] + rest
  }

  /** A pass that neither looks at relevant items nor makes any. */
  ghost predicate Apart(p: Pass, relevant: Content -> bool, key: Keys) {
    && Lawful(p) && !relevant(Absent) && key(Absent).None?
    && (forall c :: p.fits(c) ==> !relevant(c) && key(c).None?)
    && (forall xs :: !relevant(p.merge(xs)) && key(p.merge(xs)).None?)
  }

  lemma {:induction false} BlurRun(s: seq<Content>, r: nat, relevant: Content -> bool)
    requires 1 <= r <= |s| && !relevant(Absent) && forall i :: 0 <= i < r ==> !relevant(s[i])
    ensures Blur(s, relevant) == BlurFirst(Absent, Blur(s[r..], relevant), relevant)
  {
    if r > 1 {
      BlurRun(s[1..], r - 1, relevant);
      assert s[1..][r - 1..] == s[r..];
    }
  }

  lemma {:induction false} DropRun(s: seq<Content>, r: nat, seen: set<Key>, key: Keys)
    requires r <= |s| && forall i :: 0 <= i < r ==> !s[i].Absent? && key(s[i]).None?
    ensures Drop(s, seen, key) == s[..r] + Drop(s[r..], seen, key)
  {
    if r > 0 {
      assert !Gone(s[0], seen, key) && See(s[0], seen, key) == seen;
      DropStep(s, seen, key);
      DropRun(s[1..], r - 1, seen, key);
      hide *;
      assert s[1..][r - 1..] == s[r..] && s[..r] == [s[0]] + s[1..][..r - 1];
      JoinAssociates([s[0]], s[1..][..r - 1], Drop(s[r..], seen, key));
    } else {
      assert s[r..] == s && s[..r] == [];
      assert [] + Drop(s, seen, key) == Drop(s, seen, key);
    }
  }

  /** Such a pass changes nothing in what is left of the relevant items. */
  lemma {:induction false} BlurMerged(s: seq<Content>, seen: set<Key>, key: Keys, p: Pass, relevant: Content -> bool)
    requires Apart(p, relevant, key)
    ensures Blur(Drop(Merged(s, p), seen, key), relevant) == Blur(Drop(s, seen, key), relevant)
    decreases |s|
  {
    if s == [] {
    } else if !p.fits(s[0]) {
      BlurMerged(s[1..], See(s[0], seen, key), key, p, relevant);
      BlurSkip(s, seen, key, p, relevant);
    } else {
      BlurMerged(s[RunLength(s, p)..], seen, key, p, relevant);
      BlurOver(s, seen, key, p, relevant);
    }
  }

  lemma BlurSkip(s: seq<Content>, seen: set<Key>, key: Keys, p: Pass, relevant: Content -> bool)
    requires Apart(p, relevant, key) && s != [] && !p.fits(s[0])
    requires var seen' := See(s[0], seen, key);
      Blur(Drop(Merged(s[1..], p), seen', key), relevant) == Blur(Drop(s[1..], seen', key), relevant)
    ensures Blur(Drop(Merged(s, p), seen, key), relevant) == Blur(Drop(s, seen, key), relevant)
  {
    var seen' := See(s[0], seen, key);
    assert s[0].Absent? ==> Gone(s[0], seen, key) && seen' == seen;
    MergedFirst(s, p);
    hide *;
    DropStep(s, seen, key);
    if !s[0].Absent? { DropFirst(s[0], Merged(s[1..], p), seen, key); }
    if !Gone(s[0], seen, key) {
      BlurCons(s[0], Drop(Merged(s[1..], p), seen', key), relevant);
      BlurCons(s[0], Drop(s[1..], seen', key), relevant);
    }
  }

  lemma BlurOver(s: seq<Content>, seen: set<Key>, key: Keys, p: Pass, relevant: Content -> bool)
    requires Apart(p, relevant, key) && s != [] && p.fits(s[0])
    requires var r := RunLength(s, p);
      Blur(Drop(Merged(s[r..], p), seen, key), relevant) == Blur(Drop(s[r..], seen, key), relevant)
    ensures Blur(Drop(Merged(s, p), seen, key), relevant) == Blur(Drop(s, seen, key), relevant)
  {
    var r := RunLength(s, p);
    var run, m := s[..r], RunResult(s[..r], p);
    var z, z' := Drop(Merged(s[r..], p), seen, key), Drop(s[r..], seen, key);
    assert Merged(s, p) == [m] + Merged(s[r..], p) by { MergedStep(s, 0, r, p); assert s[0..] == s && s[0..r] == run; }
    RunIsApart(s, r, key, p, relevant);
    hide *;
    DropFirst(m, Merged(s[r..], p), seen, key);
    DropRun(s, r, seen, key);
    BlurCons(m, z, relevant);
    BlurRun(run + z', r, relevant);
    assert (run + z')[r..] == z';
    BlurAlike(m, Absent, Blur(z, relevant), relevant);
  }

  lemma RunIsApart(s: seq<Content>, r: nat, key: Keys, p: Pass, relevant: Content -> bool)
    requires Apart(p, relevant, key) && s != [] && p.fits(s[0]) && r == RunLength(s, p)
    ensures var m := RunResult(s[..r], p);
      forall seen: set<Key> :: !relevant(m) && !Gone(m, seen, key) && See(m, seen, key) == seen
    ensures !relevant(Absent) && forall i :: 0 <= i < r ==> !s[i].Absent? && key(s[i]).None? && !relevant(s[i])
    ensures forall z: seq<Content>, i :: 0 <= i < r ==> (s[..r] + z)[i] == s[i]
  {
    RunIsMaximal(s, p);
    forall i | 0 <= i < r ensures p.fits(s[i]) { assert s[..r][i] == s[i]; }
  }

  lemma BlurAlike(a: Content, b: Content, rest: seq<Content>, relevant: Content -> bool)
    requires !relevant(a) && !relevant(b)
    ensures BlurFirst(a, rest, relevant) == BlurFirst(b, rest, relevant)
  {
  }

  lemma BlurCons(c: Content, rest: seq<Content>, relevant: Content -> bool)
    ensures Blur([c] + rest, relevant) == BlurFirst(c, Blur(rest, relevant), relevant)
  {
    assert ([c] + rest)[1..] == rest;
  }

  /** What meets is seen through the blur. */
  lemma {:induction false} MeetsThroughBlur(prev: Content, s: seq<Content>, p: Pass)
    requires Lawful(p)
    ensures Meets(prev, s, p) <==> Meets(prev, Blur(s, p.fits), p)
    decreases |s|
  {
    if s != [] {
      var b := Blur(s[1..], p.fits);
      MeetsThroughBlur(s[0], s[1..], p);
      if p.fits(s[0]) {
        assert ([s[0]] + b)[1..] == b;
      } else if b != [] && b[0].Absent? {
        assert b == [Absent] + b[1..];
      } else {
        assert ([Absent] + b)[1..] == b;
      }
    }
  }

  /** Everything a function reads off each of the maximal runs of a pass. */
  function Batches<T>(s: seq<Content>, p: Pass, f: Content -> seq<T>): seq<seq<T>>
    decreases |s|
  {
    if s == [] then []
    else if !p.fits(s[0]) then Batches(s[1..], p, f)
    else [Gather(s[..RunLength(s, p)], f)] + Batches(s[RunLength(s, p)..], p, f)
  }

  lemma {:induction false} BlurredRun(s: seq<Content>, p: Pass)
    requires s != [] && p.fits(s[0]) && Lawful(p)
    ensures var b, r := Blur(s, p.fits), RunLength(s, p);
      b != [] && p.fits(b[0]) && RunLength(b, p) == r <= |b| && b[..r] == s[..r] && b[r..] == Blur(s[r..], p.fits)
  {
    var b := Blur(s[1..], p.fits);
    assert Blur(s, p.fits) == [s[0]] + b;
    if |s| > 1 && p.fits(s[1]) {
      BlurredRun(s[1..], p);
      assert b[0] == b[..1][0] == s[1..][..1][0] == s[1];
      BlurredMore(s, b, p);
    } else {
      assert RunLength(s, p) == 1;
      assert b == [] || !p.fits(b[0]);
      hide RunLength, Blur;
      RunCons(s[0], b, p);
      assert s[..1] == [s[0]] == ([s[0]] + b)[..1] && ([s[0]] + b)[1..] == b;
    }
  }

  lemma RunCons(c: Content, rest: seq<Content>, p: Pass)
    ensures RunLength([c] + rest, p)
         == if rest != [] && p.fits(rest[0]) && p.canMerge(c, rest[0]) then 1 + RunLength(rest, p) else 1
  {
    assert ([c] + rest)[1..] == rest;
  }

  /** The run of a list and of its blur, one item longer. */
  lemma BlurredMore(s: seq<Content>, b: seq<Content>, p: Pass)
    requires |s| > 1 && p.fits(s[1]) && b != [] && b[0] == s[1] && b == Blur(s[1..], p.fits)
    requires var q := RunLength(s[1..], p); RunLength(b, p) == q <= |b| && b[..q] == s[1..][..q] && b[q..] == Blur(s[1..][q..], p.fits)
    ensures var w, r := [s[0]] + b, RunLength(s, p);
      RunLength(w, p) == r <= |w| && w[..r] == s[..r] && w[r..] == Blur(s[r..], p.fits)
  {
    hide *;
    var c, rest := s[0], s[1..];
    assert s == [c] + rest && rest[0] == s[1];
    RunCons(c, rest, p);
    RunCons(c, b, p);
    PrefixCons(c, rest, b, RunLength(rest, p));
    PrefixCons(c, rest, b, 0);
  }

  lemma PrefixCons(c: Content, x: seq<Content>, y: seq<Content>, q: nat)
    requires q <= |x| && q <= |y| && x[..q] == y[..q]
    ensures ([c] + x)[..q + 1] == ([c] + y)[..q + 1]
    ensures ([c] + x)[q + 1..] == x[q..] && ([c] + y)[q + 1..] == y[q..]
    ensures x[0..] == x && y[0..] == y
  {
    assert ([c] + x)[..q + 1] == [c] + x[..q] && ([c] + y)[..q + 1] == [c] + y[..q];
  }

  lemma {:induction false} BatchesThroughBlur<T>(s: seq<Content>, p: Pass, f: Content -> seq<T>)
    requires Lawful(p)
    ensures Batches(s, p, f) == Batches(Blur(s, p.fits), p, f)
    decreases |s|
  {
    if s == [] {
    } else if p.fits(s[0]) {
      BlurredRun(s, p);
      BatchesThroughBlur(s[RunLength(s, p)..], p, f);
    } else {
      var b := Blur(s[1..], p.fits);
      BatchesThroughBlur(s[1..], p, f);
      if b == [] || !b[0].Absent? { assert ([Absent] + b)[1..] == b; }
    }
  }
}
