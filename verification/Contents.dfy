/** Coalescing the contents of a message: the passes, their composition, and what they keep. */
module Contents {
  import opened Messages
  import opened Base64
  import opened DataUri
  import opened Coalescing

  /** Everything a function reads off the items, in order. */
  function Gather<T>(s: seq<Content>, f: Content -> seq<T>): seq<T> {
    if s == [] then [] else f(s[0]) + Gather(s[1..], f)
  }

  lemma {:induction false} GatherConcat<T>(a: seq<Content>, b: seq<Content>, f: Content -> seq<T>)
    ensures Gather(a + b, f) == Gather(a, f) + Gather(b, f)
  {
    if a == [] {
      assert a + b == b;
      assert [] + Gather(b, f) == Gather(b, f);
    } else {
      GatherConcat(a[1..], b, f);
      hide *;
      assert a + b == [a[0]] + (a[1..] + b);
      assert a == [a[0]] + a[1..];
      GatherFirst(a[0], a[1..] + b, f);
      GatherFirst(a[0], a[1..], f);
      JoinAssociates(f(a[0]), Gather(a[1..], f), Gather(b, f));
    }
  }

  lemma JoinAssociates<T>(a: seq<T>, b: seq<T>, c: seq<T>)
    ensures a + (b + c) == a + b + c
  {
  }

  lemma GatherFirst<T>(c: Content, rest: seq<Content>, f: Content -> seq<T>)
    ensures Gather([c] + rest, f) == f(c) + Gather(rest, f)
  {
    assert ([c] + rest)[1..] == rest;
  }

  lemma GatherOne<T>(c: Content, f: Content -> seq<T>)
    ensures Gather([c], f) == f(c)
  {
    assert [c][1..] == [];
  }

  lemma {:induction false} GatherNothing<T>(s: seq<Content>, f: Content -> seq<T>)
    requires forall i :: 0 <= i < |s| ==> f(s[i]) == []
    ensures Gather(s, f) == []
  {
    if s != [] { GatherNothing(s[1..], f); }
  }

  lemma {:induction false} GatherDense<T>(s: seq<Content>, f: Content -> seq<T>)
    requires f(Absent) == []
    ensures Gather(Dense(s), f) == Gather(s, f)
  {
    if s != [] {
      var n := |s| - 1;
      GatherDense(s[..n], f);
      assert s == s[..n] + [s[n]];
      GatherConcat(s[..n], [s[n]], f);
      GatherOne(s[n], f);
      GatherConcat(Dense(s[..n]), if s[n].Absent? then [] else [s[n]], f);
    }
  }

  /** Wherever the pass merges, the merge keeps what is read off the run. */
  ghost predicate MergeKeeps<T(!new)>(p: Pass, f: Content -> seq<T>) {
    forall xs :: IsRun(xs, p) && (|xs| > 1 || p.mergeSingle) ==> f(p.merge(xs)) == Gather(xs, f)
  }

  /** A pass whose merge keeps what is read off a run keeps it for the whole list. */
  lemma {:induction false} MergedKeeps<T(!new)>(s: seq<Content>, p: Pass, f: Content -> seq<T>)
    requires f(Absent) == []
    requires MergeKeeps(p, f)
    ensures Gather(Merged(s, p), f) == Gather(s, f)
    decreases |s|
  {
    if s == [] {
    } else if !p.fits(s[0]) {
      MergedKeeps(s[1..], p, f);
      SkipKeeps(s, p, f);
    } else {
      MergedKeeps(s[RunLength(s, p)..], p, f);
      RunKeeps(s, p, f);
    }
  }

  lemma SkipKeeps<T>(s: seq<Content>, p: Pass, f: Content -> seq<T>)
    requires s != [] && !p.fits(s[0]) && f(Absent) == []
    requires Gather(Merged(s[1..], p), f) == Gather(s[1..], f)
    ensures Gather(Merged(s, p), f) == Gather(s, f)
  {
    var rest := Merged(s[1..], p);
    assert Merged(s, p) == (if s[0].Absent? then [] else [s[0]]) + rest;
    assert s == [s[0]] + s[1..];
    hide *;
    GatherFirst(s[0], s[1..], f);
    if s[0].Absent? {
      assert [] + rest == rest && [] + Gather(rest, f) == Gather(rest, f);
    } else {
      GatherFirst(s[0], rest, f);
    }
  }

  lemma RunKeeps<T(!new)>(s: seq<Content>, p: Pass, f: Content -> seq<T>)
    requires s != [] && p.fits(s[0])
    requires MergeKeeps(p, f)
    requires Gather(Merged(s[RunLength(s, p)..], p), f) == Gather(s[RunLength(s, p)..], f)
    ensures Gather(Merged(s, p), f) == Gather(s, f)
  {
    var r := RunLength(s, p);
    var run, rest := s[..r], Merged(s[r..], p);
    var m := RunResult(run, p);
    assert Merged(s, p) == [m] + rest by { MergedStep(s, 0, r, p); assert s[0..] == s && s[0..r] == run; }
    assert f(m) == Gather(run, f) by {
      RunIsMaximal(s, p);
      if r == 1 { GatherOne(s[0], f); assert run == [s[0]]; }
    }
    assert s == run + s[r..];
    hide *;
    GatherFirst(m, rest, f);
    GatherConcat(run, s[r..], f);
  }

  // ---------------------------------------------------------------- idempotent passes

  ghost predicate NoAbsent(s: seq<Content>) {
    forall i :: 0 <= i < |s| ==> !s[i].Absent?
  }

  /** What a run becomes merges with its neighbours at most where the ends of the run did. */
  ghost predicate Stable(p: Pass) {
    forall xs :: IsRun(xs, p) ==>
      var m := RunResult(xs, p);
      && p.fits(m)
      && (forall b :: p.canMerge(m, b) ==> p.canMerge(xs[|xs| - 1], b))
      && (forall a :: p.canMerge(a, m) ==> p.canMerge(a, xs[0]))
  }

  /** No two neighbours merge. */
  ghost predicate Settled(s: seq<Content>, p: Pass) {
    && NoAbsent(s)
    && (forall i :: 0 < i < |s| ==> !(p.fits(s[i - 1]) && p.fits(s[i]) && p.canMerge(s[i - 1], s[i])))
  }

  lemma {:induction false} SettledIsFixed(s: seq<Content>, p: Pass)
    requires Settled(s, p) && !p.mergeSingle
    ensures Merged(s, p) == s
    decreases |s|
  {
    if s != [] {
      SettledIsFixed(s[1..], p);
      assert s == [s[0]] + s[1..];
    }
  }

  /** After a stable pass no two neighbours merge, when there were no nil entries. */
  lemma {:induction false} MergedSettles(s: seq<Content>, p: Pass)
    requires NoAbsent(s) && Stable(p) && Lawful(p)
    ensures Settled(Merged(s, p), p)
    ensures s != [] ==> Merged(s, p) != [] && p.fits(Merged(s, p)[0]) == p.fits(s[0])
    ensures s != [] && p.fits(s[0]) ==> forall a :: p.canMerge(a, Merged(s, p)[0]) ==> p.canMerge(a, s[0])
    decreases |s|
  {
    if s == [] {
    } else if !p.fits(s[0]) {
      MergedSettles(s[1..], p);
      assert Merged(s, p) == [s[0]] + Merged(s[1..], p);
      hide Merged, Stable;
      SkipSettles(s[0], Merged(s[1..], p), p);
    } else {
      var r := RunLength(s, p);
      RunIsMaximal(s, p);
      MergedStep(s, 0, r, p);
      assert s[0..] == s && s[0..r] == s[..r];
      assert r == |s| ==> Merged(s[r..], p) == [];
      MergedSettles(s[r..], p);
      hide Merged, Stable, RunLength, RunResult;
      RunSettles(s, r, p, Merged(s[r..], p));
    }
  }

  lemma SkipSettles(c: Content, rest: seq<Content>, p: Pass)
    requires Settled(rest, p) && !p.fits(c) && !c.Absent?
    ensures Settled([c] + rest, p)
  {
    var all := [c] + rest;
    forall i | 0 < i < |all| ensures !(p.fits(all[i - 1]) && p.fits(all[i]) && p.canMerge(all[i - 1], all[i])) {
      if i > 1 { assert all[i - 1] == rest[i - 2] && all[i] == rest[i - 1]; }
    }
  }

  lemma RunSettles(s: seq<Content>, r: nat, p: Pass, rest: seq<Content>)
    requires NoAbsent(s) && Stable(p) && Lawful(p) && Settled(rest, p)
    requires 1 <= r <= |s| && IsRun(s[..r], p)
    requires r < |s| ==> !(p.fits(s[r]) && p.canMerge(s[r - 1], s[r]))
    requires r == |s| ==> rest == []
    requires r < |s| ==> rest != [] && p.fits(rest[0]) == p.fits(s[r])
    requires r < |s| && p.fits(s[r]) ==> forall a :: p.canMerge(a, rest[0]) ==> p.canMerge(a, s[r])
    ensures Settled([RunResult(s[..r], p)] + rest, p)
    ensures p.fits(RunResult(s[..r], p)) && forall a :: p.canMerge(a, RunResult(s[..r], p)) ==> p.canMerge(a, s[0])
  {
    var run := s[..r];
    var m := RunResult(run, p);
    assert run[r - 1] == s[r - 1] && run[0] == s[0];
    var all := [m] + rest;
    forall i | 0 < i < |all| ensures !(p.fits(all[i - 1]) && p.fits(all[i]) && p.canMerge(all[i - 1], all[i])) {
      if i == 1 { assert all[1] == rest[0]; } else { assert all[i - 1] == rest[i - 2] && all[i] == rest[i - 1]; }
    }
    assert !m.Absent?;
  }

  // ---------------------------------------------------------------- the passes

  predicate Plain(c: Content)
    requires !c.Absent?
  {
    c.header.annotations.None? || |c.header.annotations.value| == 0
  }

  function FirstProperties(xs: seq<Content>): Option<map<string, string>> {
    if xs == [] || xs[0].Absent? then None else xs[0].header.properties
  }

  function TextOf(c: Content): string { if c.Text? then c.text else "" }

  function ReasoningOf(c: Content): string { if c.Reasoning? then c.text else "" }

  function ProtectedOf(c: Content): seq<string> {
    if c.Reasoning? && c.protectedData != "" then [c.protectedData] else []
  }

  function UsageOf(c: Content): seq<UsageDetails> { if c.Usage? then [c.details] else [] }

  /** Usage is read off usage items alone, and all of it. */
  lemma UsageItem(a: seq<Content>, c: Content, b: seq<Content>)
    ensures Gather(a + [c] + b, UsageOf)
         == Gather(a, UsageOf) + (match c case Usage(_, details) => [details] case _ => []) + Gather(b, UsageOf)
  {
    GatherConcat(a + [c], b, UsageOf);
    GatherConcat(a, [c], UsageOf);
    GatherOne(c, UsageOf);
  }

  function BytesOf(c: Content): seq<Byte> {
    if c.Data? && Decode(c.data).Some? then Decode(c.data).value else []
  }

  const TEXTS := Pass(
    (c: Content) => c.Text? && Plain(c),
    (a: Content, b: Content) => true,
    (xs: seq<Content>) => Text(Header(FirstProperties(xs), None), Gather(xs, TextOf)),
    false)

  predicate MayContinue(a: Content) {
    a.Reasoning? && a.protectedData == ""
  }

  function LastProtected(xs: seq<Content>): string {
    if xs == [] || !xs[|xs| - 1].Reasoning? then "" else xs[|xs| - 1].protectedData
  }

  const REASONINGS := Pass(
    (c: Content) => c.Reasoning? && Plain(c),
    (a: Content, b: Content) => MayContinue(a),
    (xs: seq<Content>) => Reasoning(Header(FirstProperties(xs), None), Gather(xs, ReasoningOf), LastProtected(xs)),
    false)

  /** The part of a media type before the slash, trimmed and in lower case. */
  function TopLevel(mediaType: string): string {
    ToLower(TrimSpace(mediaType[..SlashPosition(mediaType)]))
  }

  function SlashPosition(s: string): (k: nat)
    ensures k <= |s|
  {
    if s == "" || s[0] == '/' then 0 else 1 + SlashPosition(s[1..])
  }

  predicate SameTextData(a: Content, b: Content) {
    && a.Data? && b.Data?
    && a.mediaType == b.mediaType && TopLevel(a.mediaType) == "text" && a.name == b.name
    && Decode(a.data).Some? && Decode(b.data).Some?
  }

  function FirstData(xs: seq<Content>): (string, string) {
    if xs == [] || !xs[0].Data? then ("", "") else (xs[0].name, xs[0].mediaType)
  }

  const TEXT_DATA := Pass(
    (c: Content) => c.Data? && Plain(c),
    SameTextData,
    (xs: seq<Content>) => Data(Header(None, None), FirstData(xs).0, Encode(Gather(xs, BytesOf)), FirstData(xs).1),
    false)

  function InputsOf(c: Content): seq<Content> { if c.InterpreterCall? then c.inputs else [] }

  function OutputsOf(c: Content): seq<Content> { if c.InterpreterResult? then c.outputs else [] }

  function CallIdOf(c: Content): string {
    if c.InterpreterCall? || c.InterpreterResult? || c.ImageResult? || c.WebSearchCall? then c.callId else ""
  }

  /** Interpreter calls with one ID that stand next to each other; `inner` coalesces inputs. */
  function InterpreterCalls(inner: seq<Content> -> seq<Content>): Pass {
    Pass(
      (c: Content) => c.InterpreterCall? && Plain(c),
      (a: Content, b: Content) => CallIdOf(a) == CallIdOf(b),
      (xs: seq<Content>) =>
        if |xs| == 1 && xs[0].InterpreterCall? then xs[0].(inputs := inner(xs[0].inputs))
        else InterpreterCall(Header(FirstProperties(xs), None), if xs == [] then "" else CallIdOf(xs[0]),
                             inner(Gather(xs, InputsOf))),
      true)
  }

  function InterpreterResults(inner: seq<Content> -> seq<Content>): Pass {
    Pass(
      (c: Content) => c.InterpreterResult? && Plain(c),
      (a: Content, b: Content) => CallIdOf(a) == CallIdOf(b),
      (xs: seq<Content>) =>
        if |xs| == 1 && xs[0].InterpreterResult? then xs[0].(outputs := inner(xs[0].outputs))
        else InterpreterResult(Header(FirstProperties(xs), None), if xs == [] then "" else CallIdOf(xs[0]),
                               inner(Gather(xs, OutputsOf))),
      true)
  }

  lemma PassesLawful(inner: seq<Content> -> seq<Content>)
    ensures Lawful(TEXTS) && Lawful(REASONINGS) && Lawful(TEXT_DATA)
    ensures Lawful(InterpreterCalls(inner)) && Lawful(InterpreterResults(inner))
  {
  }

  lemma CallsStable(inner: seq<Content> -> seq<Content>)
    ensures Stable(InterpreterCalls(inner))
  {
    hide Gather;
    var p := InterpreterCalls(inner);
    forall xs: seq<Content> | IsRun(xs, p) ensures CallIdOf(RunResult(xs, p)) == CallIdOf(xs[0]) == CallIdOf(xs[|xs| - 1]) {
      SameIds(xs, p, |xs| - 1);
    }
  }

  lemma ResultsStable(inner: seq<Content> -> seq<Content>)
    ensures Stable(InterpreterResults(inner))
  {
    hide Gather;
    var p := InterpreterResults(inner);
    forall xs: seq<Content> | IsRun(xs, p) ensures CallIdOf(RunResult(xs, p)) == CallIdOf(xs[0]) == CallIdOf(xs[|xs| - 1]) {
      SameIds(xs, p, |xs| - 1);
    }
  }

  lemma {:induction false} SameIds(xs: seq<Content>, p: Pass, i: nat)
    requires IsRun(xs, p) && i < |xs| && forall a, b :: p.canMerge(a, b) ==> CallIdOf(a) == CallIdOf(b)
    ensures CallIdOf(xs[i]) == CallIdOf(xs[0])
  {
    if i > 0 {
      SameIds(xs, p, i - 1);
      assert p.canMerge(xs[i - 1], xs[i]);
    }
  }

  lemma TextDataStable()
    ensures Stable(TEXT_DATA)
  {
    forall xs: seq<Content> | IsRun(xs, TEXT_DATA) && |xs| > 1
      ensures Decode(RunResult(xs, TEXT_DATA).data).Some? && Decode(xs[0].data).Some? && Decode(xs[|xs| - 1].data).Some?
      ensures xs[|xs| - 1].mediaType == xs[0].mediaType && xs[|xs| - 1].name == xs[0].name
    {
      EncodeRoundTrip(Gather(xs, BytesOf));
      assert TEXT_DATA.canMerge(xs[0], xs[1]);
      assert TEXT_DATA.canMerge(xs[|xs| - 2], xs[|xs| - 1]);
      assert forall k :: 0 < k < |xs| ==> TEXT_DATA.canMerge(xs[k - 1], xs[k]);
      SameNames(xs, |xs| - 1);
    }
  }

  lemma {:induction false} SameNames(xs: seq<Content>, i: nat)
    requires i < |xs| && forall k :: 0 < k <= i ==> SameTextData(xs[k - 1], xs[k])
    ensures i > 0 ==> xs[i].Data? && xs[0].Data? && xs[i].mediaType == xs[0].mediaType && xs[i].name == xs[0].name
  {
    if i > 0 {
      SameNames(xs, i - 1);
      assert SameTextData(xs[i - 1], xs[i]);
    }
  }
  /** A nil entry parts two texts, and its removal makes them neighbours. */
  lemma NilBreaksIdempotence()
    ensures var s := [Text(Header(None, None), "a"), Absent, Text(Header(None, None), "b")];
      Merged(Merged(s, TEXTS), TEXTS) != Merged(s, TEXTS)
  {
    var a, b := Text(Header(None, None), "a"), Text(Header(None, None), "b");
    var s := [a, Absent, b];
    assert s[1..] == [Absent, b] && [Absent, b][1..] == [b] && [b][1..] == [] && s[..1] == [a] && [b][..1] == [b];
    assert Merged([b], TEXTS) == [b];
    assert Merged([Absent, b], TEXTS) == [b];
    assert Merged(s, TEXTS) == [a, b];
    assert [a, b][1..] == [b];
    assert |Merged([a, b], TEXTS)| == 1;
  }
}
