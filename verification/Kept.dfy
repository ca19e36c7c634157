/** What coalescing keeps apart, item by item and at every depth. */
module Kept {
  import opened Messages
  import opened Base64
  import opened DataUri
  import opened Coalescing
  import opened Contents
  import opened Keyed
  import opened CoalesceAll

  /** A reading that every pass keeps survives the whole coalescing. */
  lemma AllPassesKeep<T(!new)>(s: seq<Content>, inner: Inner, f: Content -> seq<T>)
    requires f(Absent) == [] && forall c: Content :: c.ImageResult? || c.WebSearchCall? ==> f(c) == []
    requires MergeKeeps(TEXTS, f) && MergeKeeps(REASONINGS, f) && MergeKeeps(TEXT_DATA, f)
    requires MergeKeeps(InterpreterCalls(inner), f) && MergeKeeps(InterpreterResults(inner), f)
    ensures Gather(CoalesceWith(s, inner), f) == Gather(s, f)
  {
    KeyedPassesLawful();
    hide Merged, KeyedMerged, Gather, MergeKeeps;
    var a := Merged(s, TEXTS);
    var b := Merged(a, REASONINGS);
    var c := KeyedMerged(b, IMAGES);
    var d := KeyedMerged(c, SEARCHES);
    var e := Merged(d, TEXT_DATA);
    var g := Merged(e, InterpreterCalls(inner));
    MergedKeeps(s, TEXTS, f);
    MergedKeeps(a, REASONINGS, f);
    KeyedKeeps(b, IMAGES, f);
    KeyedKeeps(c, SEARCHES, f);
    MergedKeeps(d, TEXT_DATA, f);
    MergedKeeps(e, InterpreterCalls(inner), f);
    MergedKeeps(g, InterpreterResults(inner), f);
  }

  /** A pass keeps what nothing it merges takes part in. */
  lemma NothingToKeep<T(!new)>(p: Pass, f: Content -> seq<T>)
    requires forall xs, i :: IsRun(xs, p) && (|xs| > 1 || p.mergeSingle) && 0 <= i < |xs| ==> f(xs[i]) == []
    requires forall xs :: IsRun(xs, p) && (|xs| > 1 || p.mergeSingle) ==> f(p.merge(xs)) == []
    ensures MergeKeeps(p, f)
  {
    forall xs | IsRun(xs, p) && (|xs| > 1 || p.mergeSingle) ensures f(p.merge(xs)) == Gather(xs, f) { GatherNothing(xs, f); }
  }

  // ---------------------------------------------------------------- items out of reach

  /** Data that the text-data pass cannot merge. */
  predicate IsOpaque(mediaType: string, data: string) {
    TopLevel(mediaType) != "text" || Decode(data).None?
  }

  /** Neither kind nor header lets a pass change the item: function calls and their results, usage
      and everything unknown, annotated items, and data that is no decodable text. */
  predicate OutOfReach(c: Content) {
    match c
    case FunctionCall(_, _, _, _, _) => true
    case FunctionResult(_, _, _) => true
    case Usage(_, _) => true
    case Other(_, _, _) => true
    case Text(h, _) => IsAnnotated(h)
    case Reasoning(h, _, _) => IsAnnotated(h)
    case Data(h, _, data, mediaType) => IsAnnotated(h) || IsOpaque(mediaType, data)
    case InterpreterCall(h, _, _) => IsAnnotated(h)
    case InterpreterResult(h, _, _) => IsAnnotated(h)
    case _ => false
  }

  predicate IsAnnotated(h: Header) {
    h.annotations.Some? && h.annotations.value != []
  }

  function Reached(c: Content): seq<Content> {
    if OutOfReach(c) then [c] else []
  }

  /** Coalescing leaves every item that is out of reach as it is, all of them and in order. */
  lemma OutOfReachKept(s: seq<Content>)
    ensures Gather(Coalesce(s), Reached) == Gather(s, Reached)
  {
    hide *;
    var inner := InnerAt(DepthOf(s));
    ReachedTexts();
    ReachedReasonings();
    ReachedData();
    ReachedCalls(inner);
    ReachedResults(inner);
    ReachedNothing();
    AllPassesKeep(s, inner, Reached);
    CoalesceIs(s);
  }

  lemma CoalesceIs(s: seq<Content>)
    ensures Coalesce(s) == CoalesceWith(s, InnerAt(DepthOf(s)))
  {
    hide CoalesceWith;
  }

  lemma ReachedNothing()
    ensures Reached(Absent) == [] && forall c: Content :: c.ImageResult? || c.WebSearchCall? ==> Reached(c) == []
  {
  }

  lemma ReachedTexts()
    ensures MergeKeeps(TEXTS, Reached)
  {
    hide Gather;
    NothingToKeep(TEXTS, Reached);
  }

  lemma ReachedReasonings()
    ensures MergeKeeps(REASONINGS, Reached)
  {
    hide Gather;
    NothingToKeep(REASONINGS, Reached);
  }

  lemma ReachedCalls(inner: Inner)
    ensures MergeKeeps(InterpreterCalls(inner), Reached)
  {
    hide Gather;
    NothingToKeep(InterpreterCalls(inner), Reached);
  }

  lemma ReachedResults(inner: Inner)
    ensures MergeKeeps(InterpreterResults(inner), Reached)
  {
    hide Gather;
    NothingToKeep(InterpreterResults(inner), Reached);
  }

  lemma ReachedData()
    ensures MergeKeeps(TEXT_DATA, Reached)
  {
    hide *;
    forall xs, i | IsRun(xs, TEXT_DATA) && (|xs| > 1 || TEXT_DATA.mergeSingle) && 0 <= i < |xs| ensures Reached(xs[i]) == [] { RunReached(xs, i); }
    forall xs | IsRun(xs, TEXT_DATA) && (|xs| > 1 || TEXT_DATA.mergeSingle) ensures Reached(TEXT_DATA.merge(xs)) == [] { MergeReached(xs); }
    NothingToKeep(TEXT_DATA, Reached);
  }

  lemma RunReached(xs: seq<Content>, i: nat)
    requires IsRun(xs, TEXT_DATA) && (|xs| > 1 || TEXT_DATA.mergeSingle) && i < |xs|
    ensures Reached(xs[i]) == []
  {
    hide TopLevel, Decode;
    if i > 0 { assert TEXT_DATA.canMerge(xs[i - 1], xs[i]); } else { assert TEXT_DATA.canMerge(xs[0], xs[1]); }
  }

  lemma MergeReached(xs: seq<Content>)
    requires IsRun(xs, TEXT_DATA) && (|xs| > 1 || TEXT_DATA.mergeSingle)
    ensures Reached(TEXT_DATA.merge(xs)) == []
  {
    hide TopLevel, Decode, Encode, Gather;
    assert TEXT_DATA.canMerge(xs[0], xs[1]);
    EncodeRoundTrip(Gather(xs, BytesOf));
  }

  // ---------------------------------------------------------------- data by name and media type

  /** The bytes of the data items with one name and media type. */
  function BytesFor(name: string, mediaType: string): Content -> seq<Byte> {
    (c: Content) =>
      if c.Data? && c.name == name && c.mediaType == mediaType && Decode(c.data).Some? then Decode(c.data).value else []
  }

  /** Inline data stays under its name and media type, byte for byte. */
  lemma NamedBytesKept(s: seq<Content>, name: string, mediaType: string)
    ensures Gather(Coalesce(s), BytesFor(name, mediaType)) == Gather(s, BytesFor(name, mediaType))
  {
    hide *;
    var f, inner := BytesFor(name, mediaType), InnerAt(DepthOf(s));
    NoBytes(name, mediaType);
    NoBytesInCalls(name, mediaType, inner);
    NamedData(name, mediaType);
    AllPassesKeep(s, inner, f);
    CoalesceIs(s);
  }

  lemma NoBytes(name: string, mediaType: string)
    ensures var f := BytesFor(name, mediaType);
      && f(Absent) == [] && (forall c: Content :: c.ImageResult? || c.WebSearchCall? ==> f(c) == [])
      && MergeKeeps(TEXTS, f) && MergeKeeps(REASONINGS, f)
  {
    hide Gather;
    NothingToKeep(TEXTS, BytesFor(name, mediaType));
    NothingToKeep(REASONINGS, BytesFor(name, mediaType));
  }

  lemma NoBytesInCalls(name: string, mediaType: string, inner: Inner)
    ensures MergeKeeps(InterpreterCalls(inner), BytesFor(name, mediaType))
    ensures MergeKeeps(InterpreterResults(inner), BytesFor(name, mediaType))
  {
    hide Gather;
    NothingToKeep(InterpreterCalls(inner), BytesFor(name, mediaType));
    NothingToKeep(InterpreterResults(inner), BytesFor(name, mediaType));
  }

  lemma NamedData(name: string, mediaType: string)
    ensures MergeKeeps(TEXT_DATA, BytesFor(name, mediaType))
  {
    hide Gather, IsRun, BytesFor, TEXT_DATA;
    forall xs | IsRun(xs, TEXT_DATA) && (|xs| > 1 || TEXT_DATA.mergeSingle)
      ensures BytesFor(name, mediaType)(TEXT_DATA.merge(xs)) == Gather(xs, BytesFor(name, mediaType))
    {
      NamedRun(xs, name, mediaType);
    }
  }

  lemma NamedRun(xs: seq<Content>, name: string, mediaType: string)
    requires IsRun(xs, TEXT_DATA)
    ensures BytesFor(name, mediaType)(TEXT_DATA.merge(xs)) == Gather(xs, BytesFor(name, mediaType))
  {
    var f := BytesFor(name, mediaType);
    var ours := xs[0].name == name && xs[0].mediaType == mediaType;
    EncodeRoundTrip(Gather(xs, BytesOf));
    forall i | 0 <= i < |xs| ensures f(xs[i]) == if ours then BytesOf(xs[i]) else [] { SameLabels(xs, i); }
    if ours { SameReading(xs, f, BytesOf); } else { GatherNothing(xs, f); }
  }

  lemma {:induction false} SameLabels(xs: seq<Content>, i: nat)
    requires IsRun(xs, TEXT_DATA) && i < |xs|
    ensures xs[i].Data? && xs[i].name == xs[0].name && xs[i].mediaType == xs[0].mediaType
  {
    if i > 0 {
      SameLabels(xs, i - 1);
      assert TEXT_DATA.canMerge(xs[i - 1], xs[i]);
    }
  }

  lemma {:induction false} SameReading<T>(xs: seq<Content>, f: Content -> seq<T>, g: Content -> seq<T>)
    requires forall i :: 0 <= i < |xs| ==> f(xs[i]) == g(xs[i])
    ensures Gather(xs, f) == Gather(xs, g)
  {
    if xs != [] { SameReading(xs[1..], f, g); }
  }

  // ---------------------------------------------------------------- nested text

  /** The text of an item, interpreter items included, at every depth. */
  function DeepText(c: Content): string {
    match c
    case Text(_, text) => text
    case InterpreterCall(_, _, inputs) => DeepTexts(inputs)
    case InterpreterResult(_, _, outputs) => DeepTexts(outputs)
    case _ => ""
  }

  function DeepTexts(s: seq<Content>): string {
    if s == [] then "" else DeepText(s[0]) + DeepTexts(s[1..])
  }

  lemma {:induction false} DeepIsGathered(s: seq<Content>)
    ensures DeepTexts(s) == Gather(s, DeepText)
  {
    if s != [] { DeepIsGathered(s[1..]); }
  }

  ghost predicate KeepsDeep(inner: Inner) {
    forall xs :: DeepTexts(inner(xs)) == DeepTexts(xs)
  }

  /** The nested text of a list of calls is that of all their inputs. */
  lemma {:induction false} DeepCalls(xs: seq<Content>)
    requires forall i :: 0 <= i < |xs| ==> xs[i].InterpreterCall?
    ensures DeepTexts(Gather(xs, InputsOf)) == Gather(xs, DeepText)
  {
    if xs != [] {
      DeepCalls(xs[1..]);
      DeepJoin(xs[0].inputs, Gather(xs[1..], InputsOf));
    }
  }

  lemma {:induction false} DeepResults(xs: seq<Content>)
    requires forall i :: 0 <= i < |xs| ==> xs[i].InterpreterResult?
    ensures DeepTexts(Gather(xs, OutputsOf)) == Gather(xs, DeepText)
  {
    if xs != [] {
      DeepResults(xs[1..]);
      DeepJoin(xs[0].outputs, Gather(xs[1..], OutputsOf));
    }
  }

  lemma DeepJoin(a: seq<Content>, b: seq<Content>)
    ensures DeepTexts(a + b) == DeepTexts(a) + DeepTexts(b)
  {
    DeepIsGathered(a + b);
    DeepIsGathered(a);
    DeepIsGathered(b);
    GatherConcat(a, b, DeepText);
  }

  lemma DeepCallRun(xs: seq<Content>, inner: Inner)
    requires KeepsDeep(inner) && IsRun(xs, InterpreterCalls(inner))
    ensures DeepText(InterpreterCalls(inner).merge(xs)) == Gather(xs, DeepText)
    ensures InterpreterCalls(inner).merge(xs).InterpreterCall? && InterpreterCalls(inner).merge(xs).callId == xs[0].callId
  {
    DeepCalls(xs);
    if |xs| == 1 {
      GatherOne(xs[0], DeepText);
      assert xs == [xs[0]];
    }
  }

  lemma DeepResultRun(xs: seq<Content>, inner: Inner)
    requires KeepsDeep(inner) && IsRun(xs, InterpreterResults(inner))
    ensures DeepText(InterpreterResults(inner).merge(xs)) == Gather(xs, DeepText)
    ensures InterpreterResults(inner).merge(xs).InterpreterResult? && InterpreterResults(inner).merge(xs).callId == xs[0].callId
  {
    DeepResults(xs);
    if |xs| == 1 {
      GatherOne(xs[0], DeepText);
      assert xs == [xs[0]];
    }
  }

  lemma DeepTextRun(xs: seq<Content>)
    requires IsRun(xs, TEXTS)
    ensures DeepText(TEXTS.merge(xs)) == Gather(xs, DeepText)
  {
    SameReading(xs, DeepText, TextOf);
  }

  lemma WithKeepsDeep(s: seq<Content>, inner: Inner)
    requires KeepsDeep(inner)
    ensures DeepTexts(CoalesceWith(s, inner)) == DeepTexts(s)
  {
    hide *;
    NoDeepText();
    DeepInTexts();
    DeepInCalls(inner);
    DeepInResults(inner);
    AllPassesKeep(s, inner, DeepText);
    DeepIsGathered(CoalesceWith(s, inner));
    DeepIsGathered(s);
  }

  lemma NoDeepText()
    ensures DeepText(Absent) == "" && forall c: Content :: c.ImageResult? || c.WebSearchCall? ==> DeepText(c) == ""
    ensures MergeKeeps(REASONINGS, DeepText) && MergeKeeps(TEXT_DATA, DeepText)
  {
    WithoutText();
    hide DeepText, Gather;
    NothingToKeep(REASONINGS, DeepText);
    NothingToKeep(TEXT_DATA, DeepText);
  }

  lemma WithoutText()
    ensures forall c: Content :: c.Reasoning? || c.Data? || c.ImageResult? || c.WebSearchCall? || c.Absent? ==> DeepText(c) == ""
  {
  }

  lemma DeepInTexts()
    ensures MergeKeeps(TEXTS, DeepText)
  {
    hide Gather, IsRun, DeepText;
    forall xs | IsRun(xs, TEXTS) && (|xs| > 1 || TEXTS.mergeSingle) ensures DeepText(TEXTS.merge(xs)) == Gather(xs, DeepText) {
      DeepTextRun(xs);
    }
  }

  lemma DeepInCalls(inner: Inner)
    requires KeepsDeep(inner)
    ensures MergeKeeps(InterpreterCalls(inner), DeepText)
  {
    hide Gather, IsRun, DeepText, KeepsDeep, InterpreterCalls;
    var p := InterpreterCalls(inner);
    forall xs | IsRun(xs, p) && (|xs| > 1 || p.mergeSingle) ensures DeepText(p.merge(xs)) == Gather(xs, DeepText) { DeepCallRun(xs, inner); }
  }

  lemma DeepInResults(inner: Inner)
    requires KeepsDeep(inner)
    ensures MergeKeeps(InterpreterResults(inner), DeepText)
  {
    hide Gather, IsRun, DeepText, KeepsDeep, InterpreterResults;
    var p := InterpreterResults(inner);
    forall xs | IsRun(xs, p) && (|xs| > 1 || p.mergeSingle) ensures DeepText(p.merge(xs)) == Gather(xs, DeepText) { DeepResultRun(xs, inner); }
  }

  lemma {:induction false} InnerKeepsDeep(depth: nat)
    ensures KeepsDeep(InnerAt(depth))
  {
    if depth > 0 {
      InnerKeepsDeep(depth - 1);
      forall xs ensures DeepTexts(InnerAt(depth)(xs)) == DeepTexts(xs) { WithKeepsDeep(xs, InnerAt(depth - 1)); }
    }
  }

  /** Coalescing keeps the text at every depth, and in its order. */
  lemma DeepTextKept(s: seq<Content>)
    ensures DeepTexts(Coalesce(s)) == DeepTexts(s)
  {
    InnerKeepsDeep(DepthOf(s));
    CoalesceIs(s);
    hide Coalesce, KeepsDeep;
    WithKeepsDeep(s, InnerAt(DepthOf(s)));
  }

  /** The nested text of the interpreter calls, or of the results, with one ID. */
  function CallTextFor(key: string): Content -> string {
    (c: Content) => if c.InterpreterCall? && c.callId == key then DeepText(c) else ""
  }

  function ResultTextFor(key: string): Content -> string {
    (c: Content) => if c.InterpreterResult? && c.callId == key then DeepText(c) else ""
  }

  lemma CallRunFor(xs: seq<Content>, inner: Inner, key: string)
    requires KeepsDeep(inner) && IsRun(xs, InterpreterCalls(inner))
    ensures CallTextFor(key)(InterpreterCalls(inner).merge(xs)) == Gather(xs, CallTextFor(key))
  {
    var f := CallTextFor(key);
    DeepCallRun(xs, inner);
    forall i | 0 <= i < |xs| ensures f(xs[i]) == if xs[0].callId == key then DeepText(xs[i]) else "" {
      SameIds(xs, InterpreterCalls(inner), i);
    }
    if xs[0].callId == key { SameReading(xs, f, DeepText); } else { GatherNothing(xs, f); }
  }

  lemma ResultRunFor(xs: seq<Content>, inner: Inner, key: string)
    requires KeepsDeep(inner) && IsRun(xs, InterpreterResults(inner))
    ensures ResultTextFor(key)(InterpreterResults(inner).merge(xs)) == Gather(xs, ResultTextFor(key))
  {
    var f := ResultTextFor(key);
    DeepResultRun(xs, inner);
    forall i | 0 <= i < |xs| ensures f(xs[i]) == if xs[0].callId == key then DeepText(xs[i]) else "" {
      SameIds(xs, InterpreterResults(inner), i);
    }
    if xs[0].callId == key { SameReading(xs, f, DeepText); } else { GatherNothing(xs, f); }
  }

  /** What interpreters take in and put out stays with its call ID. */
  lemma InterpreterTextKept(s: seq<Content>, key: string)
    ensures Gather(Coalesce(s), CallTextFor(key)) == Gather(s, CallTextFor(key))
    ensures Gather(Coalesce(s), ResultTextFor(key)) == Gather(s, ResultTextFor(key))
  {
    var inner := InnerAt(DepthOf(s));
    InnerKeepsDeep(DepthOf(s));
    CoalesceIs(s);
    hide *;
    CallsKept(s, inner, key);
    ResultsKept(s, inner, key);
  }

  lemma CallsKept(s: seq<Content>, inner: Inner, key: string)
    requires KeepsDeep(inner)
    ensures Gather(CoalesceWith(s, inner), CallTextFor(key)) == Gather(s, CallTextFor(key))
  {
    hide *;
    NoCallText(key, inner);
    CallTextInCalls(key, inner);
    AllPassesKeep(s, inner, CallTextFor(key));
  }

  lemma NoCallText(key: string, inner: Inner)
    ensures var f := CallTextFor(key);
      && f(Absent) == "" && (forall c: Content :: c.ImageResult? || c.WebSearchCall? ==> f(c) == "")
      && MergeKeeps(TEXTS, f) && MergeKeeps(REASONINGS, f) && MergeKeeps(TEXT_DATA, f) && MergeKeeps(InterpreterResults(inner), f)
  {
    hide Gather, DeepText;
    NothingToKeep(TEXTS, CallTextFor(key));
    NothingToKeep(REASONINGS, CallTextFor(key));
    NothingToKeep(TEXT_DATA, CallTextFor(key));
    NothingToKeep(InterpreterResults(inner), CallTextFor(key));
  }

  lemma CallTextInCalls(key: string, inner: Inner)
    requires KeepsDeep(inner)
    ensures MergeKeeps(InterpreterCalls(inner), CallTextFor(key))
  {
    hide Gather, IsRun, CallTextFor, KeepsDeep, InterpreterCalls;
    var p, f := InterpreterCalls(inner), CallTextFor(key);
    forall xs | IsRun(xs, p) && (|xs| > 1 || p.mergeSingle) ensures f(p.merge(xs)) == Gather(xs, f) { CallRunFor(xs, inner, key); }
  }

  lemma ResultsKept(s: seq<Content>, inner: Inner, key: string)
    requires KeepsDeep(inner)
    ensures Gather(CoalesceWith(s, inner), ResultTextFor(key)) == Gather(s, ResultTextFor(key))
  {
    hide *;
    NoResultText(key, inner);
    ResultTextInResults(key, inner);
    AllPassesKeep(s, inner, ResultTextFor(key));
  }

  lemma NoResultText(key: string, inner: Inner)
    ensures var f := ResultTextFor(key);
      && f(Absent) == "" && (forall c: Content :: c.ImageResult? || c.WebSearchCall? ==> f(c) == "")
      && MergeKeeps(TEXTS, f) && MergeKeeps(REASONINGS, f) && MergeKeeps(TEXT_DATA, f) && MergeKeeps(InterpreterCalls(inner), f)
  {
    hide Gather, DeepText;
    NothingToKeep(TEXTS, ResultTextFor(key));
    NothingToKeep(REASONINGS, ResultTextFor(key));
    NothingToKeep(TEXT_DATA, ResultTextFor(key));
    NothingToKeep(InterpreterCalls(inner), ResultTextFor(key));
  }

  lemma ResultTextInResults(key: string, inner: Inner)
    requires KeepsDeep(inner)
    ensures MergeKeeps(InterpreterResults(inner), ResultTextFor(key))
  {
    hide Gather, IsRun, ResultTextFor, KeepsDeep, InterpreterResults;
    var p, f := InterpreterResults(inner), ResultTextFor(key);
    forall xs | IsRun(xs, p) && (|xs| > 1 || p.mergeSingle) ensures f(p.merge(xs)) == Gather(xs, f) { ResultRunFor(xs, inner, key); }
  }

  // ---------------------------------------------------------------- nested lists

  lemma {:induction false} MergedFrom(s: seq<Content>, p: Pass)
    ensures forall c :: c in Merged(s, p) ==> (c in s && !p.fits(c)) || exists xs :: IsRun(xs, p) && c == RunResult(xs, p)
    decreases |s|
  {
    if s != [] {
      assert forall c :: c in s[1..] ==> c in s;
      if p.fits(s[0]) {
        var r := RunLength(s, p);
        RunIsMaximal(s, p);
        MergedFrom(s[r..], p);
        assert forall c :: c in s[r..] ==> c in s;
        var m := RunResult(s[..r], p);
        assert IsRun(s[..r], p);
        assert Merged(s, p) == [m] + Merged(s[r..], p);
      } else {
        MergedFrom(s[1..], p);
        assert Merged(s, p) == (if s[0].Absent? then [] else [s[0]]) + Merged(s[1..], p);
      }
    }
  }

  /** The list is a coalesced one. */
  ghost predicate IsCoalesced(nested: seq<Content>) {
    exists xs :: nested == Coalesce(xs)
  }

  /** In a coalesced list what an interpreter item holds is coalesced, too, unless that is annotated. */
  ghost predicate NestedIsCoalesced(c: Content) {
    match c
    case InterpreterCall(h, _, inputs) => IsAnnotated(h) || IsCoalesced(inputs)
    case InterpreterResult(h, _, outputs) => IsAnnotated(h) || IsCoalesced(outputs)
    case _ => true
  }

  lemma CallRunNested(xs: seq<Content>)
    requires IsRun(xs, InterpreterCalls(Nested))
    ensures var m := RunResult(xs, InterpreterCalls(Nested)); m.InterpreterCall? && NestedIsCoalesced(m)
  {
    assert Nested(xs[0].inputs) == Coalesce(xs[0].inputs);
    assert Nested(Gather(xs, InputsOf)) == Coalesce(Gather(xs, InputsOf));
    hide Coalesce, Gather;
    var m := RunResult(xs, InterpreterCalls(Nested));
    assert IsCoalesced(m.inputs);
  }

  lemma ResultRunNested(xs: seq<Content>)
    requires IsRun(xs, InterpreterResults(Nested))
    ensures var m := RunResult(xs, InterpreterResults(Nested)); m.InterpreterResult? && NestedIsCoalesced(m)
  {
    assert Nested(xs[0].outputs) == Coalesce(xs[0].outputs);
    assert Nested(Gather(xs, OutputsOf)) == Coalesce(Gather(xs, OutputsOf));
    hide Coalesce, Gather;
    var m := RunResult(xs, InterpreterResults(Nested));
    assert IsCoalesced(m.outputs);
  }

  lemma AllNestedCoalesced(s: seq<Content>)
    ensures forall c :: c in Coalesce(s) ==> NestedIsCoalesced(c)
  {
    CoalesceIsRecursive(s);
    var p, q := InterpreterCalls(Nested), InterpreterResults(Nested);
    var u := BeforeCalls(s);
    var v := Merged(u, p);
    assert Coalesce(s) == Merged(v, q);
    MergedFrom(u, p);
    MergedFrom(v, q);
    assert forall c: Content :: c.InterpreterCall? && !p.fits(c) ==> IsAnnotated(c.header);
    assert forall c: Content :: c.InterpreterResult? && !q.fits(c) ==> IsAnnotated(c.header);
    hide Coalesce, Merged, BeforeCalls, IsRun, RunResult, InterpreterCalls, InterpreterResults;
    forall c | c in v && !c.InterpreterResult? ensures NestedIsCoalesced(c) {
      if xs :| IsRun(xs, p) && c == RunResult(xs, p) { CallRunNested(xs); }
    }
    forall c | c in Merged(v, q) ensures NestedIsCoalesced(c) {
      if xs :| IsRun(xs, q) && c == RunResult(xs, q) { ResultRunNested(xs); }
    }
  }

  // ---------------------------------------------------------------- headers

  /** Merged items keep the properties of the first one and have no annotations. Merged data has
      neither. */
  lemma MergedHeaders(xs: seq<Content>, inner: Inner)
    requires xs != [] && !xs[0].Absent?
    ensures TEXTS.merge(xs).header == Header(xs[0].header.properties, None)
    ensures REASONINGS.merge(xs).header == Header(xs[0].header.properties, None)
    ensures TEXT_DATA.merge(xs).header == Header(None, None)
    ensures |xs| > 1 ==> InterpreterCalls(inner).merge(xs).header == Header(xs[0].header.properties, None)
    ensures |xs| > 1 ==> InterpreterResults(inner).merge(xs).header == Header(xs[0].header.properties, None)
  {
    hide Gather;
  }

  /** Some call gives the value, and no call before it gives any. */
  ghost predicate FirstGiven<T(!new)>(s: seq<Content>, field: Content -> Option<T>, value: Option<T>) {
    || (value.None? && forall i :: 0 <= i < |s| ==> field(s[i]).None?)
    || (value.Some? && exists k :: 0 <= k < |s| && field(s[k]) == value && forall i :: 0 <= i < k ==> field(s[i]).None?)
  }

  lemma FirstGivenMore<T(!new)>(s: seq<Content>, field: Content -> Option<T>, value: Option<T>, c: Content)
    requires FirstGiven(s, field, value)
    ensures FirstGiven(s + [c], field, if value.None? then field(c) else value)
  {
    var all := s + [c];
    assert all[|s|] == c && forall i :: 0 <= i < |s| ==> all[i] == s[i];
    if value.Some? {
      var k :| 0 <= k < |s| && field(s[k]) == value && forall i :: 0 <= i < k ==> field(s[i]).None?;
      assert field(all[k]) == value;
    }
  }

  function PropertiesFor(key: string): Content -> Option<map<string, string>> {
    (c: Content) => if c.WebSearchCall? && c.callId == key then c.header.properties else None
  }

  function AnnotationsFor(key: string): Content -> Option<seq<string>> {
    (c: Content) => if c.WebSearchCall? && c.callId == key then c.header.annotations else None
  }

  /** The collected web search call has the first properties and the first annotations that a call
      with its ID gives. */
  lemma {:induction false} SearchKeepsFirstHeader(s: seq<Content>, i: nat, n: nat)
    requires i < n <= |s| && s[i].WebSearchCall? && IsFirst(s, SEARCHES, i)
    ensures var c, key := Collected(s, SEARCHES, i, n), s[i].callId;
      && c.WebSearchCall? && c.callId == key
      && FirstGiven(s[..n], PropertiesFor(key), c.header.properties)
      && FirstGiven(s[..n], AnnotationsFor(key), c.header.annotations)
  {
    var key := s[i].callId;
    assert s[..n] == s[..n - 1] + [s[n - 1]];
    if n > i + 1 {
      SearchKeepsFirstHeader(s, i, n - 1);
      var c := Collected(s, SEARCHES, i, n - 1);
      FirstGivenMore(s[..n - 1], PropertiesFor(key), c.header.properties, s[n - 1]);
      FirstGivenMore(s[..n - 1], AnnotationsFor(key), c.header.annotations, s[n - 1]);
    } else {
      assert forall j :: 0 <= j < i ==> !Matches(s[j], SEARCHES, key);
      assert FirstGiven(s[..i], PropertiesFor(key), None) && FirstGiven(s[..i], AnnotationsFor(key), None);
      FirstGivenMore(s[..i], PropertiesFor(key), None, s[i]);
      FirstGivenMore(s[..i], AnnotationsFor(key), None, s[i]);
    }
  }

  // ---------------------------------------------------------------- top-level media types

  /** The top-level type is what stands before the first slash, or everything where there is none,
      in lower case and without space around it. */
  lemma {:induction false} TopLevelIs(a: string, b: string)
    requires '/' !in a
    ensures TopLevel(a + "/" + b) == TopLevel(a) == ToLower(TrimSpace(a))
  {
    SlashAfter(a, "/" + b);
    SlashAfter(a, "");
    assert a + "" == a && (a + ("/" + b)) == a + "/" + b;
    assert (a + "/" + b)[..|a|] == a && a[..|a|] == a;
    hide ToLower, TrimSpace;
  }

  lemma {:induction false} SlashAfter(a: string, rest: string)
    requires '/' !in a && (rest == "" || rest[0] == '/')
    ensures SlashPosition(a + rest) == |a|
  {
    if a != "" {
      assert (a + rest)[1..] == a[1..] + rest;
      SlashAfter(a[1..], rest);
    } else {
      assert a + rest == rest;
    }
  }
}
