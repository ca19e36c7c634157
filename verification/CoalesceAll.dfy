/** The whole coalescing of a content list: seven passes, nested lists included. */
module CoalesceAll {
  import opened Messages
  import opened Base64
  import opened Coalescing
  import opened Contents
  import opened Keyed

  type Inner = seq<Content> -> seq<Content>

  function BeforeCalls(s: seq<Content>): seq<Content> {
    Merged(KeyedMerged(KeyedMerged(Merged(Merged(s, TEXTS), REASONINGS), IMAGES), SEARCHES), TEXT_DATA)
  }

  function CoalesceWith(s: seq<Content>, inner: Inner): seq<Content> {
    Merged(Merged(BeforeCalls(s), InterpreterCalls(inner)), InterpreterResults(inner))
  }

  /** Coalescing with lists nested up to `depth` levels coalesced, too. */
  function CoalesceTo(depth: nat, s: seq<Content>): seq<Content>
    decreases depth, 1
  {
    CoalesceWith(s, InnerAt(depth))
  }

  function InnerAt(depth: nat): Inner
    decreases depth, 0
  {
    (xs: seq<Content>) => if depth == 0 then xs else CoalesceTo(depth - 1, xs)
  }

  /** How deep interpreter items nest. */
  function Depth(c: Content): nat {
    match c
    case InterpreterCall(_, _, inputs) => 1 + DepthOf(inputs)
    case InterpreterResult(_, _, outputs) => 1 + DepthOf(outputs)
    case _ => 0
  }

  function DepthOf(s: seq<Content>): nat {
    if s == [] then 0 else
      var a, b := Depth(s[0]), DepthOf(s[1..]);
      if a > b then a else b
  }

  function Coalesce(s: seq<Content>): seq<Content> {
    CoalesceTo(DepthOf(s), s)
  }

  /** The passes one after the other on one array. Nested lists are coalesced as values. */
  method CoalesceInPlace(a: array<Content>) returns (n: nat)
    modifies a
    ensures n <= a.Length && a[..n] == Coalesce(old(a[..]))
  {
    hide Merged, KeyedMerged;
    var depth := DepthOf(a[..]);
    PassesLawful(InnerAt(depth));
    n := a.Length;
    assert a[..n] == a[..];
    n := CoalesceRuns(a, n, TEXTS);
    n := CoalesceRuns(a, n, REASONINGS);
    n := CoalesceKeyed(a, n, IMAGES);
    n := CoalesceKeyed(a, n, SEARCHES);
    n := CoalesceRuns(a, n, TEXT_DATA);
    n := CoalesceRuns(a, n, InterpreterCalls(InnerAt(depth)));
    n := CoalesceRuns(a, n, InterpreterResults(InnerAt(depth)));
  }

  // ---------------------------------------------------------------- nesting

  predicate IsInterpreter(c: Content) {
    c.InterpreterCall? || c.InterpreterResult?
  }

  ghost predicate Shallow(s: seq<Content>, d: nat) {
    forall c :: c in s && IsInterpreter(c) ==> Depth(c) <= d
  }

  lemma {:induction false} DepthBounds(s: seq<Content>)
    ensures forall c :: c in s ==> Depth(c) <= DepthOf(s)
  {
    if s != [] {
      DepthBounds(s[1..]);
      assert s == [s[0]] + s[1..];
    }
  }

  lemma {:induction false} DepthWithin(s: seq<Content>, d: nat)
    requires forall c :: c in s ==> Depth(c) <= d
    ensures DepthOf(s) <= d
  {
    if s != [] { DepthWithin(s[1..], d); }
  }

  /** A pass that makes no interpreter items takes its interpreter items from the list. */
  lemma {:induction false} MergedMembers(s: seq<Content>, p: Pass, kind: Content -> bool)
    requires forall xs :: !kind(p.merge(xs))
    ensures forall c :: c in Merged(s, p) && kind(c) ==> c in s
    decreases |s|
  {
    if s != [] {
      var r := if p.fits(s[0]) then RunLength(s, p) else 1;
      MergedMembers(s[r..], p, kind);
      assert s == s[..r] + s[r..];
    }
  }

  lemma {:induction false} DenseMembers(s: seq<Content>)
    ensures forall c :: c in Dense(s) ==> c in s
  {
    if s != [] { DenseMembers(s[..|s| - 1]); }
  }

  lemma KeyedMembers(s: seq<Content>, p: KeyedPass)
    requires LawfulKeyed(p) && forall c :: p.applies(c) ==> !IsInterpreter(c)
    ensures forall c :: c in KeyedMerged(s, p) && IsInterpreter(c) ==> c in s
  {
    var t := Marked(s, p, |s|);
    DenseMembers(t);
    forall c | c in t && IsInterpreter(c) ensures c in s {
      var i :| 0 <= i < |t| && t[i] == c;
      if p.applies(s[i]) && IsFirst(s, p, i) { CollectedFits(s, p, i, |s|); }
    }
  }

  lemma BeforeCallsShallow(s: seq<Content>, d: nat)
    requires Shallow(s, d)
    ensures Shallow(BeforeCalls(s), d)
  {
    hide Merged, KeyedMerged;
    KeyedPassesLawful();
    var a := Merged(s, TEXTS);
    var b := Merged(a, REASONINGS);
    MergedMembers(s, TEXTS, IsInterpreter);
    MergedMembers(a, REASONINGS, IsInterpreter);
    KeyedMembers(b, IMAGES);
    KeyedMembers(KeyedMerged(b, IMAGES), SEARCHES);
    MergedMembers(KeyedMerged(KeyedMerged(b, IMAGES), SEARCHES), TEXT_DATA, IsInterpreter);
  }

  /** Two passes that agree on the runs of a list merge it alike. */
  lemma {:induction false} MergedAgree(s: seq<Content>, p: Pass, q: Pass)
    requires forall a :: p.fits(a) == q.fits(a)
    requires forall a, b :: p.canMerge(a, b) == q.canMerge(a, b)
    requires p.mergeSingle == q.mergeSingle
    requires forall xs :: IsRun(xs, p) && (forall c :: c in xs ==> c in s) ==> p.merge(xs) == q.merge(xs)
    ensures Merged(s, p) == Merged(s, q)
    decreases |s|
  {
    if s != [] {
      if p.fits(s[0]) {
        RunAgree(s, p, q);
        var r := RunLength(s, p);
        RunIsMaximal(s, p);
        assert forall c :: c in s[..r] ==> c in s;
        assert forall c :: c in s[r..] ==> c in s;
        MergedAgree(s[r..], p, q);
      } else {
        assert forall c :: c in s[1..] ==> c in s;
        MergedAgree(s[1..], p, q);
      }
    }
  }

  lemma {:induction false} RunAgree(s: seq<Content>, p: Pass, q: Pass)
    requires s != []
    requires forall a :: p.fits(a) == q.fits(a)
    requires forall a, b :: p.canMerge(a, b) == q.canMerge(a, b)
    ensures RunLength(s, p) == RunLength(s, q)
  {
    if |s| > 1 { RunAgree(s[1..], p, q); }
  }

  lemma {:induction false} GatheredDepth(xs: seq<Content>, f: Content -> seq<Content>, d: nat)
    requires forall c, x :: c in xs && x in f(c) ==> Depth(x) <= d
    ensures forall x :: x in Gather(xs, f) ==> Depth(x) <= d
  {
    if xs != [] {
      assert xs[0] in xs;
      GatheredDepth(xs[1..], f, d);
    }
  }

  /** Two ways to coalesce nested lists that agree on all lists nested less than `d` levels. */
  ghost predicate AgreeBelow(f: Inner, g: Inner, d: nat) {
    d > 0 ==> forall xs: seq<Content> :: (forall x :: x in xs ==> Depth(x) <= d - 1) ==> f(xs) == g(xs)
  }

  lemma ElementDepth(xs: seq<Content>, d: nat)
    requires DepthOf(xs) <= d
    ensures forall x :: x in xs ==> Depth(x) <= d
  {
    DepthBounds(xs);
  }

  lemma CallsAgree(xs: seq<Content>, d: nat, f: Inner, g: Inner)
    requires xs != [] && forall c :: c in xs ==> c.InterpreterCall? && Depth(c) <= d
    requires AgreeBelow(f, g, d)
    ensures InterpreterCalls(f).merge(xs) == InterpreterCalls(g).merge(xs)
  {
    assert xs[0] in xs;
    forall c, x | c in xs && x in InputsOf(c) ensures Depth(x) <= d - 1 { ElementDepth(InputsOf(c), d - 1); }
    GatheredDepth(xs, InputsOf, d - 1);
    assert forall x :: x in xs[0].inputs ==> Depth(x) <= d - 1 by { assert InputsOf(xs[0]) == xs[0].inputs; }
  }

  lemma ResultsAgree(xs: seq<Content>, d: nat, f: Inner, g: Inner)
    requires xs != [] && forall c :: c in xs ==> c.InterpreterResult? && Depth(c) <= d
    requires AgreeBelow(f, g, d)
    ensures InterpreterResults(f).merge(xs) == InterpreterResults(g).merge(xs)
  {
    assert xs[0] in xs;
    forall c, x | c in xs && x in OutputsOf(c) ensures Depth(x) <= d - 1 { ElementDepth(OutputsOf(c), d - 1); }
    GatheredDepth(xs, OutputsOf, d - 1);
    assert forall x :: x in xs[0].outputs ==> Depth(x) <= d - 1 by { assert OutputsOf(xs[0]) == xs[0].outputs; }
  }

  /** They coalesce every list of at most that depth alike. */
  lemma InnersAgree(s: seq<Content>, d: nat, f: Inner, g: Inner)
    requires Shallow(s, d) && AgreeBelow(f, g, d)
    ensures CoalesceWith(s, f) == CoalesceWith(s, g)
  {
    hide Merged, BeforeCalls, Depth, AgreeBelow;
    var b := BeforeCalls(s);
    BeforeCallsShallow(s, d);
    var p, q := InterpreterCalls(f), InterpreterCalls(g);
    forall xs | IsRun(xs, p) && (forall c :: c in xs ==> c in b) ensures p.merge(xs) == q.merge(xs) {
      assert forall c: Content :: c in xs ==> c.InterpreterCall? && Depth(c) <= d;
      CallsAgree(xs, d, f, g);
    }
    MergedAgree(b, p, q);
    var c := Merged(b, p);
    MergedMembers(b, p, (x: Content) => x.InterpreterResult?);
    var p', q' := InterpreterResults(f), InterpreterResults(g);
    forall xs | IsRun(xs, p') && (forall x :: x in xs ==> x in c) ensures p'.merge(xs) == q'.merge(xs) {
      assert forall x: Content :: x in xs ==> x.InterpreterResult? && x in b;
      ResultsAgree(xs, d, f, g);
    }
    MergedAgree(c, p', q');
  }

  /** Deeper coalescing changes nothing once all levels are reached. */
  lemma {:induction false} DeepEnough(d: nat, s: seq<Content>)
    requires Shallow(s, d)
    ensures CoalesceTo(d + 1, s) == CoalesceTo(d, s)
    decreases d
  {
    hide CoalesceWith, Depth;
    if d > 0 {
      forall xs: seq<Content> | forall x :: x in xs ==> Depth(x) <= d - 1 ensures InnerAt(d)(xs) == InnerAt(d + 1)(xs) {
        DeepEnough(d - 1, xs);
      }
    }
    InnersAgree(s, d, InnerAt(d), InnerAt(d + 1));
  }

  lemma DepthIrrelevant(s: seq<Content>, d: nat)
    requires DepthOf(s) <= d
    ensures CoalesceTo(d, s) == Coalesce(s)
    decreases d
  {
    hide CoalesceTo, Depth, DepthOf;
    if DepthOf(s) < d {
      DepthIrrelevant(s, d - 1);
      ElementDepth(s, d - 1);
      DeepEnough(d - 1, s);
    }
  }

  const Nested: Inner := (xs: seq<Content>) => Coalesce(xs)

  /** The recursion the passes describe: nested lists are coalesced exactly as the whole is. */
  lemma CoalesceIsRecursive(s: seq<Content>)
    ensures Coalesce(s) == CoalesceWith(s, Nested)
  {
    var d := DepthOf(s);
    hide CoalesceWith, Depth, DepthOf, Coalesce;
    assert Coalesce(s) == CoalesceWith(s, InnerAt(d)) by { DepthIrrelevant(s, d); }
    if d > 0 {
      forall xs: seq<Content> | forall x :: x in xs ==> Depth(x) <= d - 1 ensures InnerAt(d)(xs) == Nested(xs) {
        DepthWithin(xs, d - 1);
        DepthIrrelevant(xs, d - 1);
      }
    }
    ElementDepth(s, d);
    InnersAgree(s, d, InnerAt(d), Nested);
  }

  // ---------------------------------------------------------------- what coalescing keeps

  /** A reading that interpreter items, images and searches have no part in, and that the merges
      of texts, reasonings and text data keep, survives the whole coalescing. */
  lemma CoalesceKeeps<T(!new)>(s: seq<Content>, f: Content -> seq<T>)
    requires f(Absent) == []
    requires forall c :: IsInterpreter(c) || c.ImageResult? || c.WebSearchCall? ==> f(c) == []
    requires forall xs :: IsRun(xs, TEXTS) ==> f(TEXTS.merge(xs)) == Gather(xs, f)
    requires forall xs :: IsRun(xs, REASONINGS) ==> f(REASONINGS.merge(xs)) == Gather(xs, f)
    requires forall xs :: IsRun(xs, TEXT_DATA) ==> f(TEXT_DATA.merge(xs)) == Gather(xs, f)
    ensures Gather(Coalesce(s), f) == Gather(s, f)
  {
    hide BeforeCalls;
    BeforeCallsKeep(s, f);
    AfterCallsKeep(BeforeCalls(s), InnerAt(DepthOf(s)), f);
  }

  lemma BeforeCallsKeep<T(!new)>(s: seq<Content>, f: Content -> seq<T>)
    requires f(Absent) == []
    requires forall c: Content :: c.ImageResult? || c.WebSearchCall? ==> f(c) == []
    requires forall xs :: IsRun(xs, TEXTS) ==> f(TEXTS.merge(xs)) == Gather(xs, f)
    requires forall xs :: IsRun(xs, REASONINGS) ==> f(REASONINGS.merge(xs)) == Gather(xs, f)
    requires forall xs :: IsRun(xs, TEXT_DATA) ==> f(TEXT_DATA.merge(xs)) == Gather(xs, f)
    ensures Gather(BeforeCalls(s), f) == Gather(s, f)
  {
    hide Merged, KeyedMerged, Gather, IsRun;
    KeyedPassesLawful();
    var a := Merged(s, TEXTS);
    var b := Merged(a, REASONINGS);
    MergedKeeps(s, TEXTS, f);
    MergedKeeps(a, REASONINGS, f);
    KeyedKeeps(b, IMAGES, f);
    KeyedKeeps(KeyedMerged(b, IMAGES), SEARCHES, f);
    MergedKeeps(KeyedMerged(KeyedMerged(b, IMAGES), SEARCHES), TEXT_DATA, f);
  }

  lemma AfterCallsKeep<T(!new)>(s: seq<Content>, inner: Inner, f: Content -> seq<T>)
    requires f(Absent) == [] && forall c :: IsInterpreter(c) ==> f(c) == []
    ensures Gather(Merged(Merged(s, InterpreterCalls(inner)), InterpreterResults(inner)), f) == Gather(s, f)
  {
    hide Merged, Gather;
    var p, q := InterpreterCalls(inner), InterpreterResults(inner);
    NothingRead(p, f);
    NothingRead(q, f);
    MergedKeeps(s, p, f);
    MergedKeeps(Merged(s, p), q, f);
  }

  lemma NothingRead<T(!new)>(p: Pass, f: Content -> seq<T>)
    requires forall c :: p.fits(c) ==> f(c) == []
    ensures forall xs :: IsRun(xs, p) ==> Gather(xs, f) == []
  {
    forall xs | IsRun(xs, p) ensures Gather(xs, f) == [] { GatherNothing(xs, f); }
  }

  /** Coalescing keeps the text of a message. */
  lemma TextKept(s: seq<Content>)
    ensures Gather(Coalesce(s), TextOf) == Gather(s, TextOf)
  {
    NothingRead(REASONINGS, TextOf);
    NothingRead(TEXT_DATA, TextOf);
    CoalesceKeeps(s, TextOf);
  }

  lemma ReasoningKept(s: seq<Content>)
    ensures Gather(Coalesce(s), ReasoningOf) == Gather(s, ReasoningOf)
  {
    NothingRead(TEXTS, ReasoningOf);
    NothingRead(TEXT_DATA, ReasoningOf);
    CoalesceKeeps(s, ReasoningOf);
  }

  /** A run of reasoning has protected data at most at its end, and the merge takes that over. */
  lemma {:induction false} RunProtected(xs: seq<Content>)
    requires IsRun(xs, REASONINGS)
    ensures Gather(xs, ProtectedOf) == ProtectedOf(REASONINGS.merge(xs))
  {
    if |xs| > 1 {
      assert REASONINGS.canMerge(xs[0], xs[1]);
      assert IsRun(xs[1..], REASONINGS);
      RunProtected(xs[1..]);
    } else {
      GatherOne(xs[0], ProtectedOf);
      assert xs == [xs[0]];
    }
  }

  /** The exact sequence of non-empty protected data survives. */
  lemma ProtectedKept(s: seq<Content>)
    ensures Gather(Coalesce(s), ProtectedOf) == Gather(s, ProtectedOf)
  {
    NothingRead(TEXTS, ProtectedOf);
    NothingRead(TEXT_DATA, ProtectedOf);
    forall xs | IsRun(xs, REASONINGS) ensures ProtectedOf(REASONINGS.merge(xs)) == Gather(xs, ProtectedOf) {
      RunProtected(xs);
    }
    CoalesceKeeps(s, ProtectedOf);
  }

  lemma UsageKept(s: seq<Content>)
    ensures Gather(Coalesce(s), UsageOf) == Gather(s, UsageOf)
  {
    NothingRead(TEXTS, UsageOf);
    NothingRead(REASONINGS, UsageOf);
    NothingRead(TEXT_DATA, UsageOf);
    CoalesceKeeps(s, UsageOf);
  }

  /** Decoding and encoding again loses no byte of the inline data. */
  lemma BytesKept(s: seq<Content>)
    ensures Gather(Coalesce(s), BytesOf) == Gather(s, BytesOf)
  {
    NothingRead(TEXTS, BytesOf);
    NothingRead(REASONINGS, BytesOf);
    forall xs | IsRun(xs, TEXT_DATA) ensures BytesOf(TEXT_DATA.merge(xs)) == Gather(xs, BytesOf) {
      EncodeRoundTrip(Gather(xs, BytesOf));
    }
    CoalesceKeeps(s, BytesOf);
  }

  /** Neither pass after the text pass has anything to do. */
  ghost predicate Untouched(s: seq<Content>) {
    && (forall c :: c in s ==> c.Text? || c.ImageResult?)
    && (forall i, j :: 0 <= i < j < |s| && s[i].ImageResult? && s[j].ImageResult? ==> s[i].callId != s[j].callId)
  }

  lemma {:induction false} NothingFits(s: seq<Content>, p: Pass)
    requires NoAbsent(s) && forall c :: c in s ==> !p.fits(c)
    ensures Merged(s, p) == s
  {
    if s != [] {
      assert s[0] in s;
      NothingFits(s[1..], p);
      assert s == [s[0]] + s[1..];
    }
  }

  lemma {:induction false} DenseFixed(s: seq<Content>)
    requires NoAbsent(s)
    ensures Dense(s) == s
  {
    if s != [] {
      DenseFixed(s[..|s| - 1]);
      assert s == s[..|s| - 1] + [s[|s| - 1]];
    }
  }

  lemma {:induction false} CollectedAlone(s: seq<Content>, p: KeyedPass, i: nat, n: nat)
    requires i < n <= |s| && forall j :: i < j < n ==> !Matches(s[j], p, p.id(s[i]))
    ensures Collected(s, p, i, n) == s[i]
  {
    if n > i + 1 { CollectedAlone(s, p, i, n - 1); }
  }

  lemma KeyedFixed(s: seq<Content>, p: KeyedPass)
    requires NoAbsent(s)
    requires forall i, j :: 0 <= i < j < |s| && p.applies(s[i]) && p.applies(s[j]) ==> p.id(s[i]) != p.id(s[j])
    ensures KeyedMerged(s, p) == s
  {
    forall i: nat | i < |s| ensures Marked(s, p, |s|)[i] == s[i] {
      if p.applies(s[i]) { CollectedAlone(s, p, i, |s|); }
    }
    assert Marked(s, p, |s|) == s;
    DenseFixed(s);
  }

  lemma UntouchedAfterTexts(s: seq<Content>)
    requires Untouched(Merged(s, TEXTS))
    ensures Coalesce(s) == Merged(s, TEXTS)
  {
    var t := Merged(s, TEXTS);
    var inner := InnerAt(DepthOf(s));
    assert forall i :: 0 <= i < |t| ==> t[i] in t;
    NothingFits(t, REASONINGS);
    KeyedFixed(t, IMAGES);
    KeyedFixed(t, SEARCHES);
    NothingFits(t, TEXT_DATA);
    NothingFits(t, InterpreterCalls(inner));
    NothingFits(t, InterpreterResults(inner));
  }

  /** The whole is not idempotent: dropping a second image result can leave two texts next to
      each other, after the text pass. */
  lemma NotIdempotent()
    ensures var h := Header(None, None);
      var s := [ImageResult(h, "i", []), Text(h, "a"), ImageResult(h, "i", []), Text(h, "b")];
      Coalesce(Coalesce(s)) != Coalesce(s)
  {
    var h := Header(None, None);
    var i, a, b := ImageResult(h, "i", []), Text(h, "a"), Text(h, "b");
    var s, t := [i, a, i, b], [i, a, b];
    assert Coalesce(s) == t by { FirstTime(i, a, b); }
    assert |Merged(t, TEXTS)| == 2 && Untouched(Merged(t, TEXTS)) by { SecondTime(i, a, b); }
    UntouchedAfterTexts(t);
  }

  lemma ImageDropped(i: Content, a: Content, b: Content)
    requires i.ImageResult? && a.Text? && b.Text?
    ensures KeyedMerged([i, a, i, b], IMAGES) == [i, a, b]
  {
    var s := [i, a, i, b];
    ImageMarked(i, a, b);
    assert KeyedMerged(s, IMAGES) == Dense(Marked(s, IMAGES, 4));
    assert NoAbsent([i, a]);
    hide *;
    DenseConcat([i, a] + [Absent], [b]);
    DenseConcat([i, a], [Absent]);
    DenseOne(Absent);
    DenseOne(b);
    DenseFixed([i, a]);
    assert [i, a] + [] + [b] == [i, a, b];
  }

  lemma ImageMarked(i: Content, a: Content, b: Content)
    requires i.ImageResult? && a.Text? && b.Text?
    ensures Marked([i, a, i, b], IMAGES, 4) == [i, a] + [Absent] + [b]
  {
    var s := [i, a, i, b];
    assert s[0] == i && s[1] == a && s[2] == i && s[3] == b;
    assert IsFirst(s, IMAGES, 0) && !IsFirst(s, IMAGES, 2) by { assert Matches(s[0], IMAGES, s[2].callId); }
    assert Collected(s, IMAGES, 0, 4) == i by { LastImageWins(s, 0, 2, 4); }
    hide Collected, IsFirst, Matches;
    var t := Marked(s, IMAGES, 4);
    assert t[0] == i && t[1] == a && t[2] == Absent && t[3] == b;
  }

  lemma FirstTime(i: Content, a: Content, b: Content)
    requires i.ImageResult? && a.Text? && b.Text?
    ensures Coalesce([i, a, i, b]) == [i, a, b]
  {
    hide Merged, KeyedMerged, InnerAt, DepthOf;
    var s, t := [i, a, i, b], [i, a, b];
    var inner := InnerAt(DepthOf(s));
    SettledIsFixed(s, TEXTS);
    SettledIsFixed(s, REASONINGS);
    ImageDropped(i, a, b);
    KeyedFixed(t, SEARCHES);
    NothingFits(t, TEXT_DATA);
    NothingFits(t, InterpreterCalls(inner));
    NothingFits(t, InterpreterResults(inner));
  }

  lemma SecondTime(i: Content, a: Content, b: Content)
    requires i.ImageResult? && a.Text? && b.Text? && Plain(a) && Plain(b)
    ensures |Merged([i, a, b], TEXTS)| == 2 && Untouched(Merged([i, a, b], TEXTS))
  {
    assert [i, a, b][1..] == [a, b] && [a, b][1..] == [b] && [a, b][2..] == [];
    assert RunLength([a, b], TEXTS) == 2;
    assert Merged([a, b], TEXTS) == [TEXTS.merge([a, b][..2])];
    assert Merged([i, a, b], TEXTS) == [i] + Merged([a, b], TEXTS);
  }
}
