/** When coalescing is idempotent: exactly when nothing it deletes has kept items apart that would
    merge, in the list itself and in the lists nested in it. */
module Idempotence {
  import opened Messages
  import opened Coalescing
  import opened Contents
  import opened Keyed
  import opened CoalesceAll
  import opened Adjacency

  // ---------------------------------------------------------------- one pass

  lemma {:induction false} MergedPresent(s: seq<Content>, p: Pass)
    requires Lawful(p)
    ensures NoAbsent(Merged(s, p))
    decreases |s|
  {
    if s == [] {
    } else if !p.fits(s[0]) {
      MergedPresent(s[1..], p);
    } else {
      MergedPresent(s[RunLength(s, p)..], p);
    }
  }

  /** A pass never makes the list longer, and shorter whenever it has something to do. */
  lemma {:induction false} MergedLength(s: seq<Content>, p: Pass)
    requires Lawful(p)
    ensures |Merged(s, p)| <= |s| && (|Merged(s, p)| == |s| ==> Settled(s, p))
    decreases |s|
  {
    if s == [] {
    } else if !p.fits(s[0]) {
      MergedLength(s[1..], p);
      MergedFirst(s, p);
      hide Merged;
      if |Merged(s, p)| == |s| { SettledCons(s, p); }
    } else {
      var r := RunLength(s, p);
      RunIsMaximal(s, p);
      MergedLength(s[r..], p);
      MergedStep(s, 0, r, p);
      assert s[0..] == s;
      hide Merged, RunResult;
      if |Merged(s, p)| == |s| {
        assert r == 1;
        SettledCons(s, p);
      }
    }
  }

  lemma SettledCons(s: seq<Content>, p: Pass)
    requires s != [] && Settled(s[1..], p) && !s[0].Absent?
    requires |s| > 1 ==> !(p.fits(s[0]) && p.fits(s[1]) && p.canMerge(s[0], s[1]))
    ensures Settled(s, p)
  {
    forall i | 0 < i < |s| ensures !(p.fits(s[i - 1]) && p.fits(s[i]) && p.canMerge(s[i - 1], s[i])) {
      if i > 1 { assert s[i - 1] == s[1..][i - 2] && s[i] == s[1..][i - 1]; }
    }
    forall i | 0 <= i < |s| ensures !s[i].Absent? {
      if i > 0 { assert s[i] == s[1..][i - 1]; }
    }
  }

  lemma {:induction false} DropNothing(s: seq<Content>, seen: set<Key>)
    requires NoAbsent(s)
    ensures Drop(s, seen, NoKey) == s
  {
    if s != [] {
      DropNothing(s[1..], See(s[0], seen, NoKey));
      assert s == [s[0]] + s[1..];
    }
  }

  /** Two items that a pass merges stand with nil entries, and nothing else, between them. */
  ghost predicate PartedByNil(s: seq<Content>, p: Pass, open: Content -> bool) {
    exists i: nat, j: nat :: i + 1 < j < |s| && p.fits(s[i]) && open(s[i]) && p.fits(s[j]) && NilBetween(s, i, j)
  }

  ghost predicate NilBetween(s: seq<Content>, i: nat, j: nat)
    requires j <= |s|
  {
    forall k: nat :: i < k < j ==> s[k].Absent?
  }

  lemma PartedIsNil(s: seq<Content>, w: Watch, p: Pass)
    requires w.key == NoKey && (forall c :: w.counts(c)) && forall c :: w.fits(c) == p.fits(c)
    ensures Parted(s, w) <==> PartedByNil(s, p, w.open)
  {
    assert forall k: nat :: k < |s| ==> (Vanishes(s, k, NoKey) <==> s[k].Absent?);
    if i: nat, j: nat :| i < j < |s| && PartedAt(s, w, i, j) {
      assert i + 1 < j && NilBetween(s, i, j);
    }
    if i: nat, j: nat :| i + 1 < j < |s| && p.fits(s[i]) && w.open(s[i]) && p.fits(s[j]) && NilBetween(s, i, j) {
      assert w.counts(s[i + 1]);
      assert PartedAt(s, w, i, j);
    }
  }

  lemma PassIdempotentIff(s: seq<Content>, w: Watch, p: Pass)
    requires Watches(w, p) && w.key == NoKey && forall c :: w.counts(c)
    ensures Merged(Merged(s, p), p) == Merged(s, p) <==> !PartedByNil(s, p, w.open)
  {
    hide Merged, Watches, PartedByNil, Parted, Settled;
    var t := Merged(s, p);
    assert Lawful(p) && !p.mergeSingle && !p.fits(Absent) && Proper(w) by { UnfoldWatches(w, p); }
    MergedPresent(s, p);
    DropNothing(t, {});
    MeetsIsSplits(Absent, s, {}, w, p, false, false);
    SplitsIsParted(s, w);
    PartedIsNil(s, w, p) by { UnfoldWatches(w, p); }
    SettledIsMeets(t, p);
    MergedLength(t, p);
    if Settled(t, p) { SettledIsFixed(t, p); }
  }

  lemma UnfoldWatches(w: Watch, p: Pass)
    requires Watches(w, p)
    ensures Lawful(p) && !p.mergeSingle && !p.fits(Absent) && Proper(w) && forall c :: w.fits(c) == p.fits(c)
  {
  }

  function TextWatch(key: Keys): Watch {
    Watch(key, TEXTS.fits, (c: Content) => true, (c: Content) => true)
  }

  function ReasoningWatch(key: Keys, counts: Content -> bool): Watch {
    Watch(key, REASONINGS.fits, MayContinue, counts)
  }

  lemma WatchesProper(counts: Content -> bool)
    ensures Watches(TextWatch(NoKey), TEXTS) && Watches(TextWatch(CallKey), TEXTS)
    ensures Watches(ReasoningWatch(NoKey, counts), REASONINGS) && Watches(ReasoningWatch(CallKey, counts), REASONINGS)
  {
    TextsWatched(NoKey);
    TextsWatched(CallKey);
    ReasoningsWatched(NoKey, counts);
    ReasoningsWatched(CallKey, counts);
  }

  lemma TextsWatched(key: Keys)
    requires key(Absent).None? && forall c: Content :: c.Text? ==> key(c).None?
    ensures Watches(TextWatch(key), TEXTS)
  {
    hide Gather;
  }

  lemma ReasoningsWatched(key: Keys, counts: Content -> bool)
    requires key(Absent).None? && forall c: Content :: c.Reasoning? ==> key(c).None?
    ensures Watches(ReasoningWatch(key, counts), REASONINGS)
  {
    hide Gather;
  }

  /** The text pass is idempotent on a list exactly when no two plain texts stand with nil
      entries alone between them. */
  lemma TextPassIdempotentIff(s: seq<Content>)
    ensures Merged(Merged(s, TEXTS), TEXTS) == Merged(s, TEXTS) <==> !PartedByNil(s, TEXTS, c => true)
  {
    WatchesProper(c => true);
    PassIdempotentIff(s, TextWatch(NoKey), TEXTS);
    assert PartedByNil(s, TEXTS, TextWatch(NoKey).open) <==> PartedByNil(s, TEXTS, c => true);
  }

  /** The reasoning pass is idempotent on a list exactly when no plain reasoning without protected
      data stands with nil entries alone between it and the next plain reasoning. */
  lemma ReasoningPassIdempotentIff(s: seq<Content>)
    ensures Merged(Merged(s, REASONINGS), REASONINGS) == Merged(s, REASONINGS) <==> !PartedByNil(s, REASONINGS, MayContinue)
  {
    WatchesProper(c => true);
    PassIdempotentIff(s, ReasoningWatch(NoKey, c => true), REASONINGS);
  }

  // ---------------------------------------------------------------- the keyed passes

  /** The same list but for what the items of a keyed pass hold. */
  ghost predicate LooksLike(x: seq<Content>, y: seq<Content>, p: KeyedPass) {
    |x| == |y| && forall i :: 0 <= i < |x| ==> SameLook(x[i], y[i], p)
  }

  predicate SameLook(a: Content, b: Content, p: KeyedPass) {
    a == b || (p.applies(a) && p.applies(b) && p.id(a) == p.id(b))
  }

  function ImageKey(c: Content): Option<Key> { if c.ImageResult? then Some((true, c.callId)) else None }

  function SearchKey(c: Content): Option<Key> { if c.WebSearchCall? then Some((false, c.callId)) else None }

  /** The keys of a keyed pass. */
  ghost predicate KeysOf(key: Keys, p: KeyedPass) {
    && (forall c :: p.applies(c) ==> !c.Absent?)
    && (forall c :: key(c).Some? == p.applies(c))
    && (forall a, b :: p.applies(a) && p.applies(b) ==> (key(a) == key(b) <==> p.id(a) == p.id(b)))
  }

  lemma PassKeys()
    ensures KeysOf(ImageKey, IMAGES) && KeysOf(SearchKey, SEARCHES)
  {
  }

  function Seen(s: seq<Content>, seen: set<Key>, key: Keys): set<Key> {
    if s == [] then seen else Seen(s[1..], See(s[0], seen, key), key)
  }

  lemma {:induction false} SeenIs(s: seq<Content>, seen: set<Key>, key: Keys, k: Key)
    ensures k in Seen(s, seen, key) <==> k in seen || exists j :: 0 <= j < |s| && key(s[j]) == Some(k)
  {
    if s != [] {
      SeenIs(s[1..], See(s[0], seen, key), key, k);
      if j :| 0 <= j < |s| - 1 && key(s[1..][j]) == Some(k) { assert key(s[j + 1]) == Some(k); }
      if j :| 0 <= j < |s| && key(s[j]) == Some(k) {
        if j > 0 { assert key(s[1..][j - 1]) == Some(k); }
      }
    }
  }

  lemma {:induction false} DropLast(a: seq<Content>, c: Content, seen: set<Key>, key: Keys)
    ensures Drop(a + [c], seen, key) == Drop(a, seen, key) + if Gone(c, Seen(a, seen, key), key) then [] else [c]
  {
    if a == [] {
      assert a + [c] == [c] && [c][1..] == [];
    } else {
      var ac, seen' := a + [c], See(a[0], seen, key);
      assert ac[1..] == a[1..] + [c] && ac[0] == a[0];
      DropLast(a[1..], c, seen', key);
      DropStep(a, seen, key);
      DropStep(ac, seen, key);
      SeenStep(a, seen, key);
      hide Drop, Seen, See, Gone;
      var last := if Gone(c, Seen(a, seen, key), key) then [] else [c];
      assert Drop(ac[1..], seen', key) == Drop(a[1..], seen', key) + last;
      AssociateThree([a[0]], Drop(a[1..], seen', key), last);
    }
  }

  lemma SeenStep(s: seq<Content>, seen: set<Key>, key: Keys)
    requires s != []
    ensures Seen(s, seen, key) == Seen(s[1..], See(s[0], seen, key), key)
  {
  }

  lemma AssociateThree<T>(a: seq<T>, b: seq<T>, c: seq<T>)
    ensures a + (b + c) == a + b + c
  {
  }

  /** A keyed pass deletes what the scan drops, and keeps the look of the rest. */
  lemma {:induction false} KeyedLooks(s: seq<Content>, p: KeyedPass, key: Keys, n: nat)
    requires n <= |s| && LawfulKeyed(p) && KeysOf(key, p)
    ensures LooksLike(Dense(Marked(s, p, |s|)[..n]), Drop(s[..n], {}, key), p)
  {
    var t := Marked(s, p, |s|);
    if n == 0 {
      assert t[..0] == [] && s[..0] == [];
    } else {
      var m := n - 1;
      KeyedLooks(s, p, key, m);
      MarkedLooks(s, p, key, m);
      assert t[..n] == t[..m] + [t[m]] && s[..n] == s[..m] + [s[m]];
      hide *;
      DropLast(s[..m], s[m], {}, key);
      DenseConcat(t[..m], [t[m]]);
      DenseOne(t[m]);
      LooksMore(Dense(t[..m]), Drop(s[..m], {}, key), t[m], s[m], p);
    }
  }

  lemma LooksMore(x: seq<Content>, y: seq<Content>, a: Content, b: Content, p: KeyedPass)
    requires LooksLike(x, y, p)
    ensures LooksLike(x + [], y + [], p) && (SameLook(a, b, p) ==> LooksLike(x + [a], y + [b], p))
  {
    assert x + [] == x && y + [] == y;
  }

  lemma MarkedLooks(s: seq<Content>, p: KeyedPass, key: Keys, m: nat)
    requires m < |s| && LawfulKeyed(p) && KeysOf(key, p)
    ensures var t, gone := Marked(s, p, |s|)[m], Gone(s[m], Seen(s[..m], {}, key), key);
      && t.Absent? == gone && (!gone ==> SameLook(t, s[m], p))
  {
    if p.applies(s[m]) {
      SeenIs(s[..m], {}, key, key(s[m]).value);
      if IsFirst(s, p, m) {
        CollectedFits(s, p, m, |s|);
        forall j | 0 <= j < m ensures key(s[..m][j]) != Some(key(s[m]).value) { assert !Matches(s[j], p, p.id(s[m])); }
      } else {
        var j :| 0 <= j < m && Matches(s[j], p, p.id(s[m]));
        assert key(s[..m][j]) == Some(key(s[m]).value);
      }
    }
  }

  /** Items of another pass do not matter for what a scan drops. */
  lemma {:induction false} DropLooks(x: seq<Content>, y: seq<Content>, p: KeyedPass, seen: set<Key>, key: Keys)
    requires LooksLike(x, y, p) && forall c :: p.applies(c) ==> key(c).None? && !c.Absent?
    ensures LooksLike(Drop(x, seen, key), Drop(y, seen, key), p)
  {
    if x != [] {
      assert SameLook(x[0], y[0], p);
      assert See(x[0], seen, key) == See(y[0], seen, key) && Gone(x[0], seen, key) == Gone(y[0], seen, key);
      DropLooks(x[1..], y[1..], p, See(x[0], seen, key), key);
    }
  }

  /** Dropping repeated images, then repeated searches, drops both kinds. */
  lemma {:induction false} DropTwice(s: seq<Content>, images: set<Key>, searches: set<Key>, seen: set<Key>)
    requires forall id: string :: (true, id) in images <==> (true, id) in seen
    requires forall id: string :: (false, id) in searches <==> (false, id) in seen
    ensures Drop(Drop(s, images, ImageKey), searches, SearchKey) == Drop(s, seen, CallKey)
  {
    if s != [] {
      var c := s[0];
      var images', seen' := See(c, images, ImageKey), See(c, seen, CallKey);
      DropStep(s, images, ImageKey);
      DropStep(s, seen, CallKey);
      if Gone(c, images, ImageKey) {
        DropTwice(s[1..], images', searches, seen');
      } else {
        DropFirst(c, Drop(s[1..], images', ImageKey), searches, SearchKey);
        DropTwice(s[1..], images', See(c, searches, SearchKey), seen');
      }
    }
  }

  lemma {:induction false} BlurLooks(x: seq<Content>, y: seq<Content>, p: KeyedPass, relevant: Content -> bool)
    requires LooksLike(x, y, p) && forall c :: p.applies(c) ==> !relevant(c)
    ensures Blur(x, relevant) == Blur(y, relevant)
  {
    if x != [] {
      assert SameLook(x[0], y[0], p);
      BlurLooks(x[1..], y[1..], p, relevant);
    }
  }

  /** Both keyed passes leave of the other items what the scan does. */
  lemma KeyedBlur(s: seq<Content>, relevant: Content -> bool)
    requires forall c: Content :: relevant(c) ==> !c.ImageResult? && !c.WebSearchCall?
    ensures Blur(KeyedMerged(KeyedMerged(s, IMAGES), SEARCHES), relevant) == Blur(Drop(s, {}, CallKey), relevant)
  {
    KeyedPassesLawful();
    PassKeys();
    var x := KeyedMerged(s, IMAGES);
    var y := Drop(s, {}, ImageKey);
    WholeLooks(s, IMAGES, ImageKey);
    WholeLooks(x, SEARCHES, SearchKey);
    DropLooks(x, y, IMAGES, {}, SearchKey);
    DropTwice(s, {}, {}, {});
    hide KeyedMerged, Drop, LooksLike;
    BlurLooks(KeyedMerged(x, SEARCHES), Drop(x, {}, SearchKey), SEARCHES, relevant);
    BlurLooks(Drop(x, {}, SearchKey), Drop(y, {}, SearchKey), IMAGES, relevant);
  }

  lemma WholeLooks(s: seq<Content>, p: KeyedPass, key: Keys)
    requires LawfulKeyed(p) && KeysOf(key, p)
    ensures LooksLike(KeyedMerged(s, p), Drop(s, {}, key), p)
  {
    KeyedLooks(s, p, key, |s|);
    var t := Marked(s, p, |s|);
    assert t[..|s|] == t && s[..|s|] == s;
  }

  // ---------------------------------------------------------------- from the list to what is left of it

  function AfterReasonings(s: seq<Content>): seq<Content> { Merged(Merged(s, TEXTS), REASONINGS) }

  function AfterKeyed(s: seq<Content>): seq<Content> { KeyedMerged(KeyedMerged(AfterReasonings(s), IMAGES), SEARCHES) }

  const CALLS := InterpreterCalls(Nested)
  const RESULTS := InterpreterResults(Nested)

  lemma Unfolded(s: seq<Content>)
    ensures BeforeCalls(s) == Merged(AfterKeyed(s), TEXT_DATA)
    ensures Coalesce(s) == Merged(Merged(BeforeCalls(s), CALLS), RESULTS)
  {
    CoalesceIsRecursive(s);
  }

  lemma BlurPlain(s: seq<Content>, p: Pass, relevant: Content -> bool)
    requires NoAbsent(s) && Apart(p, relevant, NoKey)
    ensures Blur(Merged(s, p), relevant) == Blur(s, relevant)
  {
    BlurMerged(s, {}, NoKey, p, relevant);
    MergedPresent(s, p);
    DropNothing(s, {});
    DropNothing(Merged(s, p), {});
  }

  lemma KeyedPresent(s: seq<Content>, p: KeyedPass)
    ensures NoAbsent(KeyedMerged(s, p))
  {
    DensePresent(Marked(s, p, |s|));
  }

  lemma {:induction false} DensePresent(s: seq<Content>)
    ensures NoAbsent(Dense(s))
  {
    if s != [] { DensePresent(s[..|s| - 1]); }
  }

  /** Readings that the last three passes do not touch. */
  lemma LaterBlur(s: seq<Content>, relevant: Content -> bool)
    requires Apart(TEXT_DATA, relevant, NoKey) && Apart(CALLS, relevant, NoKey) && Apart(RESULTS, relevant, NoKey)
    ensures Blur(Coalesce(s), relevant) == Blur(AfterKeyed(s), relevant)
  {
    Unfolded(s);
    hide Merged, Coalesce, BeforeCalls, Apart, Blur;
    var u, v := AfterKeyed(s), BeforeCalls(s);
    KeyedPresent(KeyedMerged(AfterReasonings(s), IMAGES), SEARCHES);
    PassesLawful(Nested);
    MergedPresent(u, TEXT_DATA);
    MergedPresent(v, CALLS);
    BlurPlain(u, TEXT_DATA, relevant);
    BlurPlain(v, CALLS, relevant);
    BlurPlain(Merged(v, CALLS), RESULTS, relevant);
  }

  /** What kind of items each pass looks at and makes. */
  lemma PassKinds(inner: Inner)
    ensures forall c: Content :: (TEXTS.fits(c) ==> c.Text?) && (REASONINGS.fits(c) ==> c.Reasoning?) && (TEXT_DATA.fits(c) ==> c.Data?)
    ensures forall c: Content :: InterpreterCalls(inner).fits(c) ==> c.InterpreterCall?
    ensures forall c: Content :: InterpreterResults(inner).fits(c) ==> c.InterpreterResult?
    ensures forall xs :: TEXTS.merge(xs).Text?
    ensures forall xs :: REASONINGS.merge(xs).Reasoning?
    ensures forall xs :: TEXT_DATA.merge(xs).Data?
    ensures forall xs :: InterpreterCalls(inner).merge(xs).InterpreterCall?
    ensures forall xs :: InterpreterResults(inner).merge(xs).InterpreterResult?
  {
    hide Gather;
  }

  lemma ApartByKind(p: Pass, relevant: Content -> bool, key: Keys, kind: Content -> bool)
    requires Lawful(p) && !relevant(Absent) && key(Absent).None?
    requires forall c :: p.fits(c) ==> kind(c)
    requires forall xs :: kind(p.merge(xs))
    requires forall c :: kind(c) ==> !relevant(c) && key(c).None?
    ensures Apart(p, relevant, key)
  {
  }

  /** The last three passes are apart from all but their own items. */
  lemma LaterApart(relevant: Content -> bool)
    requires forall c: Content :: relevant(c) ==> c.Text? || c.Reasoning?
    ensures Apart(TEXT_DATA, relevant, NoKey) && Apart(CALLS, relevant, NoKey) && Apart(RESULTS, relevant, NoKey)
  {
    PassesLawful(Nested);
    PassKinds(Nested);
    ApartByKind(TEXT_DATA, relevant, NoKey, (c: Content) => c.Data?);
    ApartByKind(CALLS, relevant, NoKey, (c: Content) => c.InterpreterCall?);
    ApartByKind(RESULTS, relevant, NoKey, (c: Content) => c.InterpreterResult?);
  }

  /** The first two passes are apart from all but texts and reasonings. */
  lemma EarlierApart(relevant: Content -> bool)
    requires forall c: Content :: relevant(c) ==> !c.Absent?
    ensures (forall c: Content :: relevant(c) ==> !c.Text?) ==> Apart(TEXTS, relevant, CallKey)
    ensures (forall c: Content :: relevant(c) ==> !c.Reasoning?) ==> Apart(REASONINGS, relevant, CallKey)
  {
    PassesLawful(Nested);
    PassKinds(Nested);
    if forall c: Content :: relevant(c) ==> !c.Text? { ApartByKind(TEXTS, relevant, CallKey, (c: Content) => c.Text?); }
    if forall c: Content :: relevant(c) ==> !c.Reasoning? { ApartByKind(REASONINGS, relevant, CallKey, (c: Content) => c.Reasoning?); }
  }

  /** Two plain texts, parted by nothing but nil entries and repeated images and searches. */
  ghost predicate TextsParted(s: seq<Content>) {
    Parted(s, TextWatch(CallKey))
  }

  predicate Present(c: Content) { !c.Absent? }

  /** A plain reasoning without protected data and the next plain reasoning, parted by nothing but
      such items, a repeated image or search among them. */
  ghost predicate ReasoningsParted(s: seq<Content>) {
    Parted(s, ReasoningWatch(CallKey, Present))
  }

  /** After coalescing two plain texts are neighbours exactly when they were parted before. */
  lemma TextsMeet(s: seq<Content>)
    ensures Meets(Absent, Coalesce(s), TEXTS) <==> TextsParted(s)
  {
    var a, b := Merged(s, TEXTS), AfterReasonings(s);
    PassKinds(Nested);
    PassesLawful(Nested);
    LaterApart(TEXTS.fits);
    EarlierApart(TEXTS.fits);
    hide *;
    MeetsThroughBlur(Absent, Coalesce(s), TEXTS);
    LaterBlur(s, TEXTS.fits);
    AfterBlur(s, TEXTS.fits);
    assert b == Merged(a, REASONINGS) by { AfterTexts(s); }
    BlurMerged(a, {}, CallKey, REASONINGS, TEXTS.fits);
    MeetsThroughBlur(Absent, Drop(a, {}, CallKey), TEXTS);
    TextScan(s);
  }

  lemma AfterTexts(s: seq<Content>)
    ensures AfterReasonings(s) == Merged(Merged(s, TEXTS), REASONINGS)
  {
  }

  lemma AfterBlur(s: seq<Content>, relevant: Content -> bool)
    requires forall c: Content :: relevant(c) ==> !c.ImageResult? && !c.WebSearchCall?
    ensures Blur(AfterKeyed(s), relevant) == Blur(Drop(AfterReasonings(s), {}, CallKey), relevant)
  {
    KeyedBlur(AfterReasonings(s), relevant);
  }

  lemma TextScan(s: seq<Content>)
    ensures Meets(Absent, Drop(Merged(s, TEXTS), {}, CallKey), TEXTS) <==> TextsParted(s)
  {
    var w := TextWatch(CallKey);
    WatchesProper(Present);
    hide Merged, Drop, Meets, Watches, Parted;
    assert Proper(w) && !TEXTS.fits(Absent) by { UnfoldWatches(w, TEXTS); }
    MeetsIsSplits(Absent, s, {}, w, TEXTS, false, false);
    SplitsIsParted(s, w);
  }

  /** What counts does not matter where the lists agree on it. */
  lemma {:induction false} SplitsCounts(s: seq<Content>, seen: set<Key>, v: Watch, w: Watch, ready: bool, gap: bool)
    requires v == w.(counts := v.counts) && forall c :: c in s ==> v.counts(c) == w.counts(c)
    ensures Splits(s, seen, v, ready, gap) == Splits(s, seen, w, ready, gap)
  {
    if s != [] {
      assert s[0] in s && forall c :: c in s[1..] ==> c in s;
      var seen' := See(s[0], seen, w.key);
      SplitsCounts(s[1..], seen', v, w, ready, gap || w.counts(s[0]));
      SplitsCounts(s[1..], seen', v, w, w.fits(s[0]) && w.open(s[0]), false);
    }
  }

  /** A run of items that are not watched closes whatever was open. */
  lemma {:induction false} SplitsOther(s: seq<Content>, r: nat, seen: set<Key>, w: Watch, ready: bool, gap: bool)
    requires 1 <= r <= |s| && forall i :: 0 <= i < r ==> !s[i].Absent? && w.key(s[i]).None? && !w.fits(s[i])
    ensures Splits(s, seen, w, ready, gap) == Splits(s[r..], seen, w, false, false)
  {
    if r > 1 {
      SplitsOther(s[1..], r - 1, seen, w, false, false);
      assert s[1..][r - 1..] == s[r..];
    }
  }

  /** The text pass changes nothing for a scan of other items to which nil entries do not count. */
  lemma {:induction false} SplitsAfterPass(s: seq<Content>, seen: set<Key>, w: Watch, p: Pass, ready: bool, gap: bool)
    requires Apart(p, w.fits, w.key) && !w.counts(Absent)
    ensures Splits(Merged(s, p), seen, w, ready, gap) == Splits(s, seen, w, ready, gap)
    decreases |s|
  {
    if s == [] {
    } else if !p.fits(s[0]) {
      MergedFirst(s, p);
      hide Merged;
      var seen' := See(s[0], seen, w.key);
      var rest := Merged(s[1..], p);
      if s[0].Absent? {
        SplitsAfterPass(s[1..], seen, w, p, ready, gap);
      } else {
        assert ([s[0]] + rest)[1..] == rest;
        SplitsAfterPass(s[1..], seen', w, p, ready, gap || w.counts(s[0]));
        SplitsAfterPass(s[1..], seen', w, p, w.fits(s[0]) && w.open(s[0]), false);
      }
    } else {
      var r := RunLength(s, p);
      RunIsMaximal(s, p);
      MergedStep(s, 0, r, p);
      assert s[0..] == s && s[0..r] == s[..r];
      forall i | 0 <= i < r ensures p.fits(s[i]) { assert s[..r][i] == s[i]; }
      hide Merged, Splits, RunLength;
      var m, rest := RunResult(s[..r], p), Merged(s[r..], p);
      SplitsAfterPass(s[r..], seen, w, p, false, false);
      SplitsOther(s, r, seen, w, ready, gap);
      SplitsOther([m] + rest, 1, seen, w, ready, gap);
      assert ([m] + rest)[1..] == rest;
    }
  }

  lemma ReasoningScan(s: seq<Content>)
    ensures Meets(Absent, Drop(AfterReasonings(s), {}, CallKey), REASONINGS) <==> ReasoningsParted(s)
  {
    var a := Merged(s, TEXTS);
    var v, w := ReasoningWatch(CallKey, _ => true), ReasoningWatch(CallKey, Present);
    WatchesProper(_ => true);
    WatchesProper(Present);
    PassesLawful(Nested);
    MergedPresent(s, TEXTS);
    assert forall c :: c in a ==> !c.Absent?;
    PassKinds(Nested);
    EarlierApart(REASONINGS.fits);
    hide Merged, Drop, Meets, Watches, Parted, Splits, Apart;
    assert Proper(w) && !REASONINGS.fits(Absent) by { UnfoldWatches(w, REASONINGS); }
    MeetsIsSplits(Absent, a, {}, v, REASONINGS, false, false);
    SplitsCounts(a, {}, v, w, false, false);
    SplitsAfterPass(s, {}, w, TEXTS, false, false);
    SplitsIsParted(s, w);
  }

  /** And two reasonings of which the first is open, likewise. */
  lemma ReasoningsMeet(s: seq<Content>)
    ensures Meets(Absent, Coalesce(s), REASONINGS) <==> ReasoningsParted(s)
  {
    PassKinds(Nested);
    PassesLawful(Nested);
    LaterApart(REASONINGS.fits);
    hide *;
    MeetsThroughBlur(Absent, Coalesce(s), REASONINGS);
    LaterBlur(s, REASONINGS.fits);
    AfterBlur(s, REASONINGS.fits);
    MeetsThroughBlur(Absent, Drop(AfterReasonings(s), {}, CallKey), REASONINGS);
    ReasoningScan(s);
  }

  // ---------------------------------------------------------------- fixed points

  lemma KeyedLength(s: seq<Content>, p: KeyedPass)
    ensures |KeyedMerged(s, p)| <= |s|
  {
    DenseLength(Marked(s, p, |s|));
  }

  lemma {:induction false} DenseLength(s: seq<Content>)
    ensures |Dense(s)| <= |s|
  {
    if s != [] { DenseLength(s[..|s| - 1]); }
  }

  /** A list on which no two neighbours merge: each item by itself becomes what it becomes. */
  function Each(s: seq<Content>, p: Pass): seq<Content> {
    seq(|s|, i requires 0 <= i < |s| => if p.fits(s[i]) then RunResult([s[i]], p) else s[i])
  }

  lemma {:induction false} SettledSingles(s: seq<Content>, p: Pass)
    requires Settled(s, p)
    ensures Merged(s, p) == Each(s, p)
    decreases |s|
  {
    if s != [] {
      var rest := s[1..];
      assert Settled(rest, p) by {
        forall i | 0 < i < |rest| ensures !(p.fits(rest[i - 1]) && p.fits(rest[i]) && p.canMerge(rest[i - 1], rest[i])) {
          assert rest[i - 1] == s[i] && rest[i] == s[i + 1];
        }
      }
      SettledSingles(rest, p);
      if p.fits(s[0]) { assert RunLength(s, p) == 1 && s[..1] == [s[0]]; }
      assert Each(s, p) == [if p.fits(s[0]) then RunResult([s[0]], p) else s[0]] + Each(rest, p);
    }
  }

  /** What holds of every coalesced list. */
  ghost predicate Clear(t: seq<Content>) {
    && NoAbsent(t) && NoRepeats(t, IMAGES) && NoRepeats(t, SEARCHES)
    && Settled(t, TEXT_DATA) && Settled(t, CALLS) && Settled(t, RESULTS)
  }

  ghost predicate InnerFixed(t: seq<Content>) {
    Each(Each(t, CALLS), RESULTS) == t
  }

  lemma {:induction false} EachKeepsSettled(t: seq<Content>)
    requires Settled(t, RESULTS)
    ensures Settled(Each(t, CALLS), RESULTS)
  {
    var w := Each(t, CALLS);
    PassKinds(Nested);
    PassesLawful(Nested);
    forall i | 0 <= i < |t| ensures (RESULTS.fits(w[i]) ==> w[i] == t[i]) && (w[i].Absent? ==> t[i].Absent?) {
    }
  }

  /** A coalesced list is a fixed point exactly when no texts and no reasonings meet in it and
      the lists nested in it are fixed points. */
  lemma FixedIff(t: seq<Content>)
    ensures Clear(t) ==>
      (Coalesce(t) == t <==> !Meets(Absent, t, TEXTS) && !Meets(Absent, t, REASONINGS) && InnerFixed(t))
  {
    PassesLawful(Nested);
    Unfolded(t);
    SettledIsMeets(t, TEXTS);
    SettledIsMeets(t, REASONINGS);
    assert TEXTS.mergeSingle == REASONINGS.mergeSingle == TEXT_DATA.mergeSingle == false;
    hide Merged, KeyedMerged, Settled, NoRepeats, Meets, Coalesce, BeforeCalls, NoAbsent, Each;
    if Clear(t) && Coalesce(t) == t {
      var a, b := Merged(t, TEXTS), AfterReasonings(t);
      var x, u, v := KeyedMerged(b, IMAGES), AfterKeyed(t), BeforeCalls(t);
      MergedLength(t, TEXTS);
      MergedLength(a, REASONINGS);
      KeyedLength(b, IMAGES);
      KeyedLength(x, SEARCHES);
      MergedLength(u, TEXT_DATA);
      MergedLength(v, CALLS);
      MergedLength(Merged(v, CALLS), RESULTS);
      assert Settled(t, TEXTS);
      SettledIsFixed(t, TEXTS);
      assert Settled(t, REASONINGS);
    }
    SettledSteps(t);
  }

  lemma SettledSteps(t: seq<Content>)
    ensures Clear(t) && Settled(t, TEXTS) && Settled(t, REASONINGS) ==> Coalesce(t) == Each(Each(t, CALLS), RESULTS)
  {
    Unfolded(t);
    assert TEXTS.mergeSingle == REASONINGS.mergeSingle == TEXT_DATA.mergeSingle == false;
    hide Merged, Coalesce, BeforeCalls, Each, KeyedMerged, Settled;
    if Clear(t) && Settled(t, TEXTS) && Settled(t, REASONINGS) {
      SettledIsFixed(t, TEXTS);
      SettledIsFixed(t, REASONINGS);
      KeyedFixed(t, IMAGES);
      KeyedFixed(t, SEARCHES);
      SettledIsFixed(t, TEXT_DATA);
      SettledSingles(t, CALLS);
      EachKeepsSettled(t);
      SettledSingles(Each(t, CALLS), RESULTS);
    }
  }

  // ---------------------------------------------------------------- every coalesced list is clear

  function ImageIds(c: Content): seq<string> { if c.ImageResult? then [c.callId] else [] }

  function SearchIds(c: Content): seq<string> { if c.WebSearchCall? then [c.callId] else [] }

  ghost predicate Distinct(s: seq<string>) {
    forall i, j :: 0 <= i < j < |s| ==> s[i] != s[j]
  }

  lemma {:induction false} GatherMember<T>(s: seq<Content>, f: Content -> seq<T>, x: T)
    ensures x in Gather(s, f) <==> exists c :: c in s && x in f(c)
  {
    if s != [] {
      GatherMember(s[1..], f, x);
      assert s == [s[0]] + s[1..];
    }
  }

  ghost predicate IdsOf(f: Content -> seq<string>, p: KeyedPass) {
    forall c :: f(c) == if p.applies(c) then [p.id(c)] else []
  }

  lemma {:induction false} RepeatsIds(s: seq<Content>, p: KeyedPass, f: Content -> seq<string>)
    requires IdsOf(f, p)
    ensures NoRepeats(s, p) <==> Distinct(Gather(s, f))
  {
    if s != [] {
      var rest := s[1..];
      var ids := Gather(rest, f);
      RepeatsIds(rest, p, f);
      assert s == [s[0]] + rest;
      RepeatsCons(s, p);
      if p.applies(s[0]) {
        GatherMember(rest, f, p.id(s[0]));
        DistinctCons(p.id(s[0]), ids);
        assert Gather(s, f) == [p.id(s[0])] + ids;
      } else {
        assert Gather(s, f) == ids;
      }
    }
  }

  lemma RepeatsCons(s: seq<Content>, p: KeyedPass)
    requires s != []
    ensures NoRepeats(s, p) <==>
      NoRepeats(s[1..], p) && (p.applies(s[0]) ==> forall c :: c in s[1..] && p.applies(c) ==> p.id(c) != p.id(s[0]))
  {
    var rest := s[1..];
    if NoRepeats(s, p) {
      forall i, j | 0 <= i < j < |rest| && p.applies(rest[i]) && p.applies(rest[j]) ensures p.id(rest[i]) != p.id(rest[j]) {
        assert rest[i] == s[i + 1] && rest[j] == s[j + 1];
      }
      forall c | c in rest && p.applies(c) && p.applies(s[0]) ensures p.id(c) != p.id(s[0]) {
        var j :| 0 <= j < |rest| && rest[j] == c;
        assert s[j + 1] == c;
      }
    }
    if NoRepeats(rest, p) && (p.applies(s[0]) ==> forall c :: c in rest && p.applies(c) ==> p.id(c) != p.id(s[0])) {
      forall i, j | 0 <= i < j < |s| && p.applies(s[i]) && p.applies(s[j]) ensures p.id(s[i]) != p.id(s[j]) {
        assert s[j] == rest[j - 1] && s[j] in rest;
        if i > 0 { assert s[i] == rest[i - 1]; }
      }
    }
  }

  lemma DistinctCons(x: string, s: seq<string>)
    ensures Distinct([x] + s) <==> x !in s && Distinct(s)
  {
    var all := [x] + s;
    assert forall i :: 0 <= i < |s| ==> all[i + 1] == s[i];
    if Distinct(all) {
      forall i | 0 <= i < |s| ensures s[i] != x { assert all[0] != all[i + 1]; }
      forall i, j | 0 <= i < j < |s| ensures s[i] != s[j] { assert all[i + 1] != all[j + 1]; }
    }
  }

  /** The last three passes keep the IDs of images and searches. */
  lemma LaterIds(s: seq<Content>, f: Content -> seq<string>)
    requires forall c: Content :: f(c) != [] ==> c.ImageResult? || c.WebSearchCall?
    ensures Gather(Coalesce(s), f) == Gather(AfterKeyed(s), f)
  {
    Unfolded(s);
    PassKinds(Nested);
    hide Merged, Coalesce, BeforeCalls, Gather;
    NothingRead(TEXT_DATA, f);
    NothingRead(CALLS, f);
    NothingRead(RESULTS, f);
    MergedKeeps(AfterKeyed(s), TEXT_DATA, f);
    MergedKeeps(BeforeCalls(s), CALLS, f);
    MergedKeeps(Merged(BeforeCalls(s), CALLS), RESULTS, f);
  }

  lemma IdsOfPasses()
    ensures IdsOf(ImageIds, IMAGES) && IdsOf(SearchIds, SEARCHES)
  {
  }

  lemma CoalescedOnce(s: seq<Content>)
    ensures NoRepeats(Coalesce(s), IMAGES) && NoRepeats(Coalesce(s), SEARCHES)
  {
    var b := AfterReasonings(s);
    var x := KeyedMerged(b, IMAGES);
    KeyedPassesLawful();
    OnePerCallId(b, IMAGES);
    OnePerCallId(x, SEARCHES);
    KeyedKeeps(x, SEARCHES, ImageIds);
    IdsOfPasses();
    LaterIds(s, ImageIds);
    LaterIds(s, SearchIds);
    hide KeyedMerged, Coalesce, Gather, NoRepeats, Distinct, IdsOf, AfterReasonings;
    RepeatsIds(x, IMAGES, ImageIds);
    RepeatsIds(Coalesce(s), IMAGES, ImageIds);
    RepeatsIds(AfterKeyed(s), SEARCHES, SearchIds);
    RepeatsIds(Coalesce(s), SEARCHES, SearchIds);
  }

  /** What a pass has settled stays settled by passes apart from it. */
  lemma SettledStays(s: seq<Content>, p: Pass, q: Pass)
    requires Settled(s, q) && Lawful(p) && Lawful(q) && Apart(p, q.fits, NoKey)
    ensures Settled(Merged(s, p), q)
  {
    hide Merged, Meets, Settled, Apart;
    assert NoAbsent(s) by { SettledIsMeets(s, q); }
    SettledIsMeets(s, q);
    SettledIsMeets(Merged(s, p), q);
    MergedPresent(s, p);
    BlurPlain(s, p, q.fits);
    MeetsThroughBlur(Absent, s, q);
    MeetsThroughBlur(Absent, Merged(s, p), q);
  }

  lemma InterpretersApart()
    ensures Apart(CALLS, TEXT_DATA.fits, NoKey) && Apart(RESULTS, TEXT_DATA.fits, NoKey)
    ensures Apart(RESULTS, CALLS.fits, NoKey) && Apart(CALLS, RESULTS.fits, NoKey)
  {
    PassesLawful(Nested);
    PassKinds(Nested);
    ApartByKind(CALLS, TEXT_DATA.fits, NoKey, (c: Content) => c.InterpreterCall?);
    ApartByKind(RESULTS, TEXT_DATA.fits, NoKey, (c: Content) => c.InterpreterResult?);
    ApartByKind(RESULTS, CALLS.fits, NoKey, (c: Content) => c.InterpreterResult?);
    ApartByKind(CALLS, RESULTS.fits, NoKey, (c: Content) => c.InterpreterCall?);
  }

  lemma CoalescedIsClear(s: seq<Content>)
    ensures Clear(Coalesce(s))
  {
    var u, v := AfterKeyed(s), BeforeCalls(s);
    var w := Merged(v, CALLS);
    Unfolded(s);
    PassesLawful(Nested);
    InterpretersApart();
    TextDataStable();
    CallsStable(Nested);
    ResultsStable(Nested);
    KeyedPresent(KeyedMerged(AfterReasonings(s), IMAGES), SEARCHES);
    CoalescedOnce(s);
    hide Merged, Settled, Coalesce, BeforeCalls, Stable, NoRepeats, Apart, KeyedMerged;
    MergedSettles(u, TEXT_DATA);
    MergedPresent(u, TEXT_DATA);
    MergedSettles(v, CALLS);
    MergedPresent(v, CALLS);
    SettledStays(v, CALLS, TEXT_DATA);
    SettledStays(w, RESULTS, TEXT_DATA);
    SettledStays(w, RESULTS, CALLS);
    MergedSettles(w, RESULTS);
    MergedPresent(w, RESULTS);
  }

  // ---------------------------------------------------------------- nested lists

  function PlainInputs(c: Content): seq<seq<Content>> {
    if c.InterpreterCall? && Plain(c) then [c.inputs] else []
  }

  function PlainOutputs(c: Content): seq<seq<Content>> {
    if c.InterpreterResult? && Plain(c) then [c.outputs] else []
  }

  ghost predicate AllFixed(lists: seq<seq<Content>>) {
    forall x :: x in lists ==> Coalesce(x) == x
  }

  lemma EachOne(c: Content)
    ensures CALLS.fits(c) ==> RunResult([c], CALLS) == c.(inputs := Coalesce(c.inputs)) && PlainInputs(c) == [c.inputs]
    ensures RESULTS.fits(c) ==> RunResult([c], RESULTS) == c.(outputs := Coalesce(c.outputs)) && PlainOutputs(c) == [c.outputs]
    ensures !CALLS.fits(c) ==> PlainInputs(c) == []
    ensures !RESULTS.fits(c) ==> PlainOutputs(c) == []
    ensures CALLS.fits(c) ==> c.InterpreterCall? && !RESULTS.fits(c.(inputs := Coalesce(c.inputs)))
    ensures RESULTS.fits(c) ==> c.InterpreterResult?
  {
    hide Gather, Coalesce;
  }

  lemma EachTwice(t: seq<Content>, i: nat)
    requires i < |t|
    ensures Each(Each(t, CALLS), RESULTS)[i] == t[i] <==> AllFixed(PlainInputs(t[i])) && AllFixed(PlainOutputs(t[i]))
  {
    var c := t[i];
    var x := if CALLS.fits(c) then RunResult([c], CALLS) else c;
    assert Each(t, CALLS)[i] == x;
    assert Each(Each(t, CALLS), RESULTS)[i] == if RESULTS.fits(x) then RunResult([x], RESULTS) else x;
    hide Each;
    EachOne(c);
    hide Coalesce, RunResult;
    if CALLS.fits(c) {
      assert c.inputs in PlainInputs(c) && PlainOutputs(c) == [];
    } else if RESULTS.fits(c) {
      assert c.outputs in PlainOutputs(c) && PlainInputs(c) == [];
    }
  }

  lemma AllFixedGathered(t: seq<Content>, f: Content -> seq<seq<Content>>)
    ensures AllFixed(Gather(t, f)) <==> forall i :: 0 <= i < |t| ==> AllFixed(f(t[i]))
  {
    hide Coalesce, Gather;
    forall x ensures x in Gather(t, f) <==> exists c :: c in t && x in f(c) { GatherMember(t, f, x); }
    if forall i :: 0 <= i < |t| ==> AllFixed(f(t[i])) {
      forall x | x in Gather(t, f) ensures Coalesce(x) == x {
        var c :| c in t && x in f(c);
        var i :| 0 <= i < |t| && t[i] == c;
        assert AllFixed(f(t[i]));
      }
    }
    if AllFixed(Gather(t, f)) {
      forall i | 0 <= i < |t| ensures AllFixed(f(t[i])) {
        forall x | x in f(t[i]) ensures Coalesce(x) == x { assert t[i] in t; }
      }
    }
  }

  /** Each item by itself is fixed exactly when the lists nested in the items are. */
  lemma InnerFixedIs(t: seq<Content>)
    ensures InnerFixed(t) <==> AllFixed(Gather(t, PlainInputs)) && AllFixed(Gather(t, PlainOutputs))
  {
    var z := Each(Each(t, CALLS), RESULTS);
    forall i | 0 <= i < |t| ensures z[i] == t[i] <==> AllFixed(PlainInputs(t[i])) && AllFixed(PlainOutputs(t[i])) {
      EachTwice(t, i);
    }
    AllFixedGathered(t, PlainInputs);
    AllFixedGathered(t, PlainOutputs);
    hide AllFixed, PlainInputs, PlainOutputs;
    if z != t { var i :| 0 <= i < |t| && z[i] != t[i]; }
  }

  ghost predicate ReadsBatches(p: Pass, out: Content -> seq<seq<Content>>, read: Content -> seq<Content>) {
    && Lawful(p) && p.mergeSingle && out(Absent) == []
    && (forall c :: !p.fits(c) ==> out(c) == [])
    && (forall xs :: IsRun(xs, p) ==> out(p.merge(xs)) == [Coalesce(Gather(xs, read))])
  }

  lemma BatchReaders()
    ensures ReadsBatches(CALLS, PlainInputs, InputsOf) && ReadsBatches(RESULTS, PlainOutputs, OutputsOf)
  {
    PassesLawful(Nested);
    forall xs: seq<Content> | IsRun(xs, CALLS) ensures PlainInputs(CALLS.merge(xs)) == [Coalesce(Gather(xs, InputsOf))] {
      CallBatch(xs);
    }
    forall xs: seq<Content> | IsRun(xs, RESULTS) ensures PlainOutputs(RESULTS.merge(xs)) == [Coalesce(Gather(xs, OutputsOf))] {
      ResultBatch(xs);
    }
    hide IsRun, Gather, Coalesce;
  }

  lemma CallBatch(xs: seq<Content>)
    requires IsRun(xs, CALLS)
    ensures PlainInputs(CALLS.merge(xs)) == [Coalesce(Gather(xs, InputsOf))]
  {
    if |xs| == 1 { OneGathered(xs, InputsOf); }
    assert CALLS.fits(xs[0]);
    hide Gather, Coalesce, IsRun;
  }

  lemma ResultBatch(xs: seq<Content>)
    requires IsRun(xs, RESULTS)
    ensures PlainOutputs(RESULTS.merge(xs)) == [Coalesce(Gather(xs, OutputsOf))]
  {
    if |xs| == 1 { OneGathered(xs, OutputsOf); }
    assert RESULTS.fits(xs[0]);
    hide Gather, Coalesce, IsRun;
  }

  lemma OneGathered(xs: seq<Content>, f: Content -> seq<Content>)
    requires |xs| == 1
    ensures Gather(xs, f) == f(xs[0])
  {
    GatherOne(xs[0], f);
    assert xs == [xs[0]];
  }

  function EachCoalesced(lists: seq<seq<Content>>): seq<seq<Content>> {
    if lists == [] then [] else [Coalesce(lists[0])] + EachCoalesced(lists[1..])
  }

  lemma {:induction false} EachCoalescedMember(lists: seq<seq<Content>>, x: seq<Content>)
    ensures x in EachCoalesced(lists) <==> exists y :: y in lists && x == Coalesce(y)
  {
    if lists != [] {
      EachCoalescedMember(lists[1..], x);
      assert lists == [lists[0]] + lists[1..];
    }
  }

  /** The lists nested in the items that a pass makes are its batches, coalesced. */
  lemma {:induction false} PassBatches(s: seq<Content>, p: Pass, out: Content -> seq<seq<Content>>, read: Content -> seq<Content>)
    requires ReadsBatches(p, out, read)
    ensures Gather(Merged(s, p), out) == EachCoalesced(Batches(s, p, read))
    decreases |s|
  {
    if s == [] {
    } else if !p.fits(s[0]) {
      MergedFirst(s, p);
      PassBatches(s[1..], p, out, read);
      hide Merged, Coalesce;
      if !s[0].Absent? { GatherFirst(s[0], Merged(s[1..], p), out); }
      assert [] + Gather(Merged(s[1..], p), out) == Gather(Merged(s[1..], p), out);
    } else {
      var r := RunLength(s, p);
      RunIsMaximal(s, p);
      MergedStep(s, 0, r, p);
      assert s[0..] == s && s[0..r] == s[..r];
      PassBatches(s[r..], p, out, read);
      var m, b, rest := p.merge(s[..r]), Gather(s[..r], read), Batches(s[r..], p, read);
      assert Batches(s, p, read) == [b] + rest;
      assert out(m) == [Coalesce(b)];
      assert EachCoalesced([b] + rest) == [Coalesce(b)] + EachCoalesced(rest) by { assert ([b] + rest)[1..] == rest; }
      hide Merged, Batches, Coalesce, EachCoalesced;
      GatherFirst(m, Merged(s[r..], p), out);
    }
  }

  /** Coalescing twice does to every batch what coalescing once does. */
  ghost predicate AllIdempotent(lists: seq<seq<Content>>) {
    forall x :: x in lists ==> Coalesce(Coalesce(x)) == Coalesce(x)
  }

  lemma BatchesFixed(s: seq<Content>, p: Pass, out: Content -> seq<seq<Content>>, read: Content -> seq<Content>)
    requires ReadsBatches(p, out, read)
    ensures AllFixed(Gather(Merged(s, p), out)) <==> AllIdempotent(Batches(s, p, read))
  {
    PassBatches(s, p, out, read);
    hide Merged, Gather, Coalesce, Batches, ReadsBatches;
    var b := Batches(s, p, read);
    forall x ensures x in EachCoalesced(b) <==> exists y :: y in b && x == Coalesce(y) { EachCoalescedMember(b, x); }
    hide EachCoalesced;
    if AllFixed(EachCoalesced(b)) {
      forall y | y in b ensures Coalesce(Coalesce(y)) == Coalesce(y) { assert Coalesce(y) in EachCoalesced(b); }
    }
  }

  /** What a list has apart from nil entries and repeated images and searches. */
  function Kept(s: seq<Content>): seq<Content> {
    Drop(s, {}, CallKey)
  }

  lemma BlurKept(s: seq<Content>, relevant: Content -> bool)
    requires forall c: Content :: relevant(c) ==> c.InterpreterCall? || c.InterpreterResult?
    ensures Blur(BeforeCalls(s), relevant) == Blur(Kept(s), relevant)
  {
    assert BeforeCalls(s) == Merged(AfterKeyed(s), TEXT_DATA) by { Unfolded(s); }
    assert Apart(TEXT_DATA, relevant, NoKey) by {
      PassesLawful(Nested);
      PassKinds(Nested);
      ApartByKind(TEXT_DATA, relevant, NoKey, (c: Content) => c.Data?);
    }
    assert NoAbsent(AfterKeyed(s)) by { KeyedPresent(KeyedMerged(AfterReasonings(s), IMAGES), SEARCHES); }
    EarlierApart(relevant);
    AfterTexts(s);
    assert Kept(s) == Drop(s, {}, CallKey);
    hide *;
    BlurPlain(AfterKeyed(s), TEXT_DATA, relevant);
    AfterBlur(s, relevant);
    BlurMerged(Merged(s, TEXTS), {}, CallKey, REASONINGS, relevant);
    BlurMerged(s, {}, CallKey, TEXTS, relevant);
  }

  /** The batches of interpreter items are those of the list itself. */
  lemma BatchesKept(s: seq<Content>)
    ensures Batches(BeforeCalls(s), CALLS, InputsOf) == Batches(Kept(s), CALLS, InputsOf)
    ensures Batches(Merged(BeforeCalls(s), CALLS), RESULTS, OutputsOf) == Batches(Kept(s), RESULTS, OutputsOf)
  {
    var v := BeforeCalls(s);
    var w := Merged(v, CALLS);
    Unfolded(s);
    PassesLawful(Nested);
    PassKinds(Nested);
    InterpretersApart();
    MergedPresent(AfterKeyed(s), TEXT_DATA);
    hide Merged, KeyedMerged, BeforeCalls, Coalesce, Kept, Blur, Apart, Batches;
    BlurKept(s, CALLS.fits);
    BlurKept(s, RESULTS.fits);
    BlurPlain(v, CALLS, RESULTS.fits);
    BatchesThroughBlur(v, CALLS, InputsOf);
    BatchesThroughBlur(Kept(s), CALLS, InputsOf);
    BatchesThroughBlur(w, RESULTS, OutputsOf);
    BatchesThroughBlur(Kept(s), RESULTS, OutputsOf);
  }

  lemma NestedFixed(s: seq<Content>)
    ensures InnerFixed(Coalesce(s)) <==>
      AllIdempotent(Batches(Kept(s), CALLS, InputsOf)) && AllIdempotent(Batches(Kept(s), RESULTS, OutputsOf))
  {
    var v := BeforeCalls(s);
    var w := Merged(v, CALLS);
    Unfolded(s);
    PassKinds(Nested);
    BatchReaders();
    NothingRead(RESULTS, PlainInputs);
    hide Merged, BeforeCalls, Coalesce, Kept, Batches, Gather, ReadsBatches, AllFixed, AllIdempotent, InnerFixed;
    MergedKeeps(w, RESULTS, PlainInputs);
    InnerFixedIs(Coalesce(s));
    BatchesFixed(v, CALLS, PlainInputs, InputsOf);
    BatchesFixed(w, RESULTS, PlainOutputs, OutputsOf);
    BatchesKept(s);
  }

  /** Coalescing is idempotent on a list exactly when nothing parts its texts or its reasonings
      and it is idempotent on what each run of interpreter items holds. */
  lemma IdempotentStep(s: seq<Content>)
    ensures Coalesce(Coalesce(s)) == Coalesce(s) <==>
      && !TextsParted(s) && !ReasoningsParted(s)
      && AllIdempotent(Batches(Kept(s), CALLS, InputsOf)) && AllIdempotent(Batches(Kept(s), RESULTS, OutputsOf))
  {
    hide *;
    CoalescedIsClear(s);
    FixedIff(Coalesce(s));
    TextsMeet(s);
    ReasoningsMeet(s);
    NestedFixed(s);
  }

  // ---------------------------------------------------------------- the condition at every depth

  lemma {:induction false} DropMembers(s: seq<Content>, seen: set<Key>, key: Keys)
    ensures forall c :: c in Drop(s, seen, key) ==> c in s
  {
    if s != [] {
      DropMembers(s[1..], See(s[0], seen, key), key);
      assert s == [s[0]] + s[1..];
    }
  }

  lemma {:induction false} BatchMembers(s: seq<Content>, p: Pass, f: Content -> seq<Content>)
    ensures forall b, x :: b in Batches(s, p, f) && x in b ==> exists c :: c in s && p.fits(c) && x in f(c)
    ensures forall b :: b in Batches(s, p, f) ==> exists c :: c in s && p.fits(c)
    decreases |s|
  {
    if s == [] {
    } else if !p.fits(s[0]) {
      BatchMembers(s[1..], p, f);
      assert s == [s[0]] + s[1..];
    } else {
      var r := RunLength(s, p);
      RunIsMaximal(s, p);
      BatchMembers(s[r..], p, f);
      assert s == s[..r] + s[r..];
      assert s[0] in s;
      forall x | x in Gather(s[..r], f) ensures exists c :: c in s && p.fits(c) && x in f(c) {
        GatherMember(s[..r], f, x);
        var c :| c in s[..r] && x in f(c);
        var i :| 0 <= i < r && s[..r][i] == c;
        assert p.fits(c);
      }
    }
  }

  /** Batches are nested less deep than the list. */
  lemma BatchesShallower(s: seq<Content>)
    ensures forall b :: b in Batches(Kept(s), CALLS, InputsOf) || b in Batches(Kept(s), RESULTS, OutputsOf) ==> DepthOf(b) < DepthOf(s)
  {
    NestedShallower(s);
    DropMembers(s, {}, CallKey);
    assert Kept(s) == Drop(s, {}, CallKey);
    hide *;
    forall b | b in Batches(Kept(s), CALLS, InputsOf) ensures DepthOf(b) < DepthOf(s) {
      BatchShallower(s, Kept(s), CALLS, InputsOf, b);
    }
    forall b | b in Batches(Kept(s), RESULTS, OutputsOf) ensures DepthOf(b) < DepthOf(s) {
      BatchShallower(s, Kept(s), RESULTS, OutputsOf, b);
    }
  }

  lemma NestedShallower(s: seq<Content>)
    ensures forall c :: c in s && CALLS.fits(c) ==> DepthOf(InputsOf(c)) < DepthOf(s)
    ensures forall c :: c in s && RESULTS.fits(c) ==> DepthOf(OutputsOf(c)) < DepthOf(s)
  {
    PassKinds(Nested);
    DepthBounds(s);
    forall c: Content ensures c.InterpreterCall? ==> Depth(c) == 1 + DepthOf(InputsOf(c)) {
    }
    forall c: Content ensures c.InterpreterResult? ==> Depth(c) == 1 + DepthOf(OutputsOf(c)) {
    }
    hide Depth, DepthOf, Coalesce;
  }

  lemma BatchShallower(s: seq<Content>, kept: seq<Content>, p: Pass, f: Content -> seq<Content>, b: seq<Content>)
    requires b in Batches(kept, p, f) && forall c :: c in kept ==> c in s
    requires forall c :: c in s && p.fits(c) ==> DepthOf(f(c)) < DepthOf(s)
    ensures DepthOf(b) < DepthOf(s)
  {
    hide Batches, DepthOf, Depth;
    BatchMembers(kept, p, f);
    var n := DepthOf(s) - 1;
    assert n >= 0 by { var c :| c in kept && p.fits(c); assert DepthOf(f(c)) < DepthOf(s); }
    forall x | x in b ensures Depth(x) <= n {
      var c :| c in kept && p.fits(c) && x in f(c);
      ElementDepth(f(c), n);
    }
    DepthWithin(b, n);
  }

  /** Nothing that coalescing deletes keeps apart what would merge, at any depth. */
  ghost predicate Steady(s: seq<Content>)
    decreases DepthOf(s)
  {
    BatchesShallower(s);
    && !TextsParted(s) && !ReasoningsParted(s)
    && (forall b :: b in Batches(Kept(s), CALLS, InputsOf) ==> Steady(b))
    && (forall b :: b in Batches(Kept(s), RESULTS, OutputsOf) ==> Steady(b))
  }

  /** Coalescing a list twice gives what coalescing it once gives if and only if it is steady. */
  lemma {:induction false} CoalesceIdempotentIff(s: seq<Content>)
    ensures Coalesce(Coalesce(s)) == Coalesce(s) <==> Steady(s)
    decreases DepthOf(s)
  {
    hide Coalesce, Batches, Kept, TextsParted, ReasoningsParted, DepthOf;
    IdempotentStep(s);
    BatchesShallower(s);
    forall b | b in Batches(Kept(s), CALLS, InputsOf) || b in Batches(Kept(s), RESULTS, OutputsOf)
      ensures Coalesce(Coalesce(b)) == Coalesce(b) <==> Steady(b)
    {
      CoalesceIdempotentIff(b);
    }
  }
}
