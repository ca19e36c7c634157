/** Splitting a text or a reasoning into chunks does not show once a response is collected. */
module Chunking {
  import opened Messages
  import opened Coalescing
  import opened Contents
  import opened Keyed
  import opened CoalesceAll
  import opened Responses

  /** An item, and the two chunks in which it may arrive. */
  datatype Chunks = Chunks(whole: Content, first: Content, second: Content)

  /** Two plain texts or two plain reasonings, the first of them open, and what they are together.
      Of the properties only those of the first chunk stay. */
  predicate Fitting(k: Chunks) {
    && !k.first.Absent? && !k.second.Absent? && Plain(k.first) && Plain(k.second)
    && match (k.first, k.second)
       case (Text(h, a), Text(_, b)) => k.whole == Text(Header(h.properties, None), a + b)
       case (Reasoning(h, a, ""), Reasoning(_, b, protectedData)) =>
         k.whole == Reasoning(Header(h.properties, None), a + b, protectedData)
       case _ => false
  }

  function PassOf(k: Chunks): Pass {
    if k.whole.Text? then TEXTS else REASONINGS
  }

  /** The list with the item in one piece, and with the item in two. */
  function Whole(x: seq<Content>, k: Chunks, y: seq<Content>): seq<Content> {
    x + [k.whole] + y
  }

  function Halves(x: seq<Content>, k: Chunks, y: seq<Content>): seq<Content> {
    x + [k.first, k.second] + y
  }

  /** The chunks merge, and with their neighbours they merge like the whole. */
  lemma ChunkLaws(k: Chunks)
    requires Fitting(k)
    ensures var p := PassOf(k);
      && p.fits(k.whole) && p.fits(k.first) && p.fits(k.second) && p.canMerge(k.first, k.second)
      && (forall c :: p.canMerge(c, k.first) == p.canMerge(c, k.whole))
      && (forall c :: p.canMerge(k.second, c) == p.canMerge(k.whole, c))
  {
  }

  // ---------------------------------------------------------------- one run

  /** The run at the front is one longer where it reaches the chunks, and the same otherwise. */
  lemma {:induction false} RunAlike(x: seq<Content>, k: Chunks, y: seq<Content>)
    requires Fitting(k)
    ensures var p := PassOf(k);
      var n := RunLength(Whole(x, k, y), p);
      RunLength(Halves(x, k, y), p) == if n <= |x| then n else n + 1
  {
    var p := PassOf(k);
    var s, t := Halves(x, k, y), Whole(x, k, y);
    ChunkLaws(k);
    hide Fitting, PassOf;
    if x == [] {
      assert s[1..] == [k.second] + y && t[1..] == y && s[1..][1..] == y;
      assert s[0] == k.first && s[1] == k.second && t[0] == k.whole;
      assert y != [] ==> s[1..][1] == y[0] && t[1] == y[0];
      RunStep(s, p);
      RunStep(s[1..], p);
      RunStep(t, p);
    } else {
      assert s[1..] == Halves(x[1..], k, y) && t[1..] == Whole(x[1..], k, y);
      assert s[0] == t[0] == x[0];
      assert if |x| > 1 then s[1] == t[1] == x[1] else s[1] == k.first && t[1] == k.whole;
      RunAlike(x[1..], k, y);
      RunStep(s, p);
      RunStep(t, p);
    }
  }

  lemma RunStep(s: seq<Content>, p: Pass)
    requires s != []
    ensures RunLength(s, p) == if |s| > 1 && p.fits(s[1]) && p.canMerge(s[0], s[1]) then 1 + RunLength(s[1..], p) else 1
  {
  }

  /** The run that holds the item gives the same merge either way. */
  lemma SameMerge(x: seq<Content>, k: Chunks, z: seq<Content>)
    requires Fitting(k)
    ensures RunResult(Halves(x, k, z), PassOf(k)) == RunResult(Whole(x, k, z), PassOf(k))
  {
    var s, t := Halves(x, k, z), Whole(x, k, z);
    SameText(x, k, z);
    assert FirstProperties(s) == FirstProperties(t) by {
      if x != [] { assert s[0] == t[0] == x[0]; } else { assert s[0] == k.first && t[0] == k.whole; }
    }
    assert LastProtected(s) == LastProtected(t) by {
      if z != [] { assert s[|s| - 1] == t[|t| - 1] == z[|z| - 1]; } else { assert s[|s| - 1] == k.second && t[|t| - 1] == k.whole; }
    }
    if |t| == 1 {
      assert x == [] && z == [] && t == [k.whole] && s == [k.first, k.second];
      OneText(k);
    }
  }

  /** What is read off a list, with a part in the middle. */
  lemma GatherMiddle<T>(x: seq<Content>, m: seq<Content>, z: seq<Content>, f: Content -> seq<T>)
    ensures Gather(x + m + z, f) == Gather(x, f) + Gather(m, f) + Gather(z, f)
  {
    GatherConcat(x + m, z, f);
    GatherConcat(x, m, f);
  }

  lemma OneText(k: Chunks)
    requires Fitting(k)
    ensures Gather([k.first, k.second], TextOf) == TextOf(k.whole) == Gather([k.whole], TextOf)
    ensures Gather([k.first, k.second], ReasoningOf) == ReasoningOf(k.whole) == Gather([k.whole], ReasoningOf)
  {
    assert [k.first, k.second] == [k.first] + [k.second];
    GatherFirst(k.first, [k.second], TextOf);
    GatherFirst(k.first, [k.second], ReasoningOf);
    GatherOne(k.second, TextOf);
    GatherOne(k.second, ReasoningOf);
    GatherOne(k.whole, TextOf);
    GatherOne(k.whole, ReasoningOf);
  }

  lemma SameText(x: seq<Content>, k: Chunks, z: seq<Content>)
    requires Fitting(k)
    ensures Gather(Halves(x, k, z), TextOf) == Gather(Whole(x, k, z), TextOf)
    ensures Gather(Halves(x, k, z), ReasoningOf) == Gather(Whole(x, k, z), ReasoningOf)
  {
    OneText(k);
    hide Fitting, Gather;
    GatherMiddle(x, [k.first, k.second], z, TextOf);
    GatherMiddle(x, [k.whole], z, TextOf);
    GatherMiddle(x, [k.first, k.second], z, ReasoningOf);
    GatherMiddle(x, [k.whole], z, ReasoningOf);
  }

  // ---------------------------------------------------------------- one pass

  lemma MergedRun(s: seq<Content>, p: Pass, r: nat)
    requires s != [] && p.fits(s[0]) && r == RunLength(s, p)
    ensures Merged(s, p) == [RunResult(s[..r], p)] + Merged(s[r..], p)
  {
  }

  lemma MergedSkip(s: seq<Content>, p: Pass)
    requires s != [] && !p.fits(s[0])
    ensures Merged(s, p) == (if s[0].Absent? then [] else [s[0]]) + Merged(s[1..], p)
  {
  }

  lemma HalvesAndWhole(x: seq<Content>, k: Chunks, y: seq<Content>, n: nat)
    requires n <= |x|
    ensures Halves(x, k, y)[..n] == Whole(x, k, y)[..n] == x[..n]
    ensures Halves(x, k, y)[n..] == Halves(x[n..], k, y) && Whole(x, k, y)[n..] == Whole(x[n..], k, y)
  {
  }

  lemma HalvesAndWholeBehind(x: seq<Content>, k: Chunks, y: seq<Content>, n: nat)
    requires n <= |y|
    ensures var m := |x| + 1 + n;
      && Halves(x, k, y)[..m + 1] == Halves(x, k, y[..n]) && Whole(x, k, y)[..m] == Whole(x, k, y[..n])
      && Halves(x, k, y)[m + 1..] == Whole(x, k, y)[m..] == y[n..]
  {
  }

  /** The pass over such items makes no difference between one and its two chunks. */
  lemma {:induction false} MergedAlike(x: seq<Content>, k: Chunks, y: seq<Content>)
    requires Fitting(k)
    ensures Merged(Halves(x, k, y), PassOf(k)) == Merged(Whole(x, k, y), PassOf(k))
    decreases |x|
  {
    hide *;
    var s, t, p := Halves(x, k, y), Whole(x, k, y), PassOf(k);
    FrontAlike(x, k, y);
    if !p.fits(s[0]) {
      HalvesAndWhole(x, k, y, 1);
      MergedAlike(x[1..], k, y);
      MergedSkip(s, p);
      MergedSkip(t, p);
    } else {
      var n := RunLength(t, p);
      RunAlike(x, k, y);
      MergedRun(s, p, RunLength(s, p));
      MergedRun(t, p, n);
      if n <= |x| {
        HalvesAndWhole(x, k, y, n);
        MergedAlike(x[n..], k, y);
      } else {
        var z := y[..n - |x| - 1];
        HalvesAndWholeBehind(x, k, y, n - |x| - 1);
        SameMerge(x, k, z);
      }
    }
  }

  lemma FrontAlike(x: seq<Content>, k: Chunks, y: seq<Content>)
    requires Fitting(k)
    ensures var s, t, p := Halves(x, k, y), Whole(x, k, y), PassOf(k);
      && |s| == |x| + 2 + |y| && |t| == |x| + 1 + |y| && p.fits(s[0]) == p.fits(t[0])
      && (!p.fits(s[0]) ==> x != [] && s[0] == t[0])
  {
    ChunkLaws(k);
  }

  /** A pass over other items leaves both where they are. */
  lemma {:induction false} PassedBy(x: seq<Content>, m: seq<Content>, y: seq<Content>, p: Pass)
    requires m != [] && !m[0].Absent? && !p.fits(m[0])
    ensures Merged(x + m + y, p) == Merged(x, p) + [m[0]] + Merged(m[1..] + y, p)
    decreases |x|
  {
    hide *;
    var s := x + m + y;
    if x == [] {
      assert s == m + y && s[0] == m[0] && s[1..] == m[1..] + y;
      MergedNone(p);
      MergedSkip(s, p);
    } else {
      assert s[0] == x[0];
      if !p.fits(x[0]) {
        assert s[1..] == x[1..] + m + y;
        PassedBy(x[1..], m, y, p);
        MergedSkip(s, p);
        MergedSkip(x, p);
      } else {
        var r := RunLength(x, p);
        RunStopsAt(x, m + y, p);
        assert s == x + (m + y);
        assert s[..r] == x[..r] && s[r..] == x[r..] + m + y;
        PassedBy(x[r..], m, y, p);
        MergedRun(s, p, r);
        MergedRun(x, p, r);
      }
    }
  }

  lemma MergedNone(p: Pass)
    ensures Merged([], p) == []
  {
  }

  lemma {:induction false} RunStopsAt(x: seq<Content>, t: seq<Content>, p: Pass)
    requires x != [] && t != [] && !p.fits(t[0])
    ensures RunLength(x + t, p) == RunLength(x, p)
  {
    var s := x + t;
    assert s[0] == x[0] && s[1] == if |x| > 1 then x[1] else t[0];
    if |x| > 1 {
      assert s[1..] == x[1..] + t;
      RunStopsAt(x[1..], t, p);
    }
  }

  // ---------------------------------------------------------------- all passes

  lemma SameDepth(x: seq<Content>, k: Chunks, y: seq<Content>)
    requires Fitting(k)
    ensures DepthOf(Halves(x, k, y)) == DepthOf(Whole(x, k, y))
  {
    var s, t := Halves(x, k, y), Whole(x, k, y);
    DepthBounds(s);
    DepthBounds(t);
    forall c | c in s ensures Depth(c) <= DepthOf(t) {
      if c in x || c in y { assert c in t; }
    }
    forall c | c in t ensures Depth(c) <= DepthOf(s) {
      if c in x || c in y { assert c in s; }
    }
    DepthWithin(s, DepthOf(t));
    DepthWithin(t, DepthOf(s));
  }

  /** Reasonings come through the pass over texts as they are. */
  lemma TextPassAlike(x: seq<Content>, k: Chunks, y: seq<Content>)
    requires Fitting(k) && !k.whole.Text?
    ensures var x', y' := Merged(x, TEXTS), Merged(y, TEXTS);
      && Merged(Halves(x, k, y), TEXTS) == Halves(x', k, y')
      && Merged(Whole(x, k, y), TEXTS) == Whole(x', k, y')
  {
    var x', y' := Merged(x, TEXTS), Merged(y, TEXTS);
    hide Merged;
    PassedBy(x, [k.whole], y, TEXTS);
    PassedBy(x, [k.first, k.second], y, TEXTS);
    assert [k.whole][1..] + y == y;
    assert [k.first, k.second][1..] + y == [k.second] + y == [] + [k.second] + y;
    PassedBy([], [k.second], y, TEXTS);
    MergedNone(TEXTS);
    assert [k.second][1..] + y == y;
    assert x' + [k.first] + ([] + [k.second] + y') == Halves(x', k, y');
  }

  lemma FirstPassesAlike(x: seq<Content>, k: Chunks, y: seq<Content>)
    requires Fitting(k)
    ensures Merged(Merged(Halves(x, k, y), TEXTS), REASONINGS) == Merged(Merged(Whole(x, k, y), TEXTS), REASONINGS)
  {
    hide Merged, Fitting, Halves, Whole;
    if k.whole.Text? {
      MergedAlike(x, k, y);
    } else {
      TextPassAlike(x, k, y);
      MergedAlike(Merged(x, TEXTS), k, Merged(y, TEXTS));
    }
  }

  /** Nor does the whole coalescing make a difference. */
  lemma CoalescedAlike(x: seq<Content>, k: Chunks, y: seq<Content>)
    requires Fitting(k)
    ensures Coalesce(Halves(x, k, y)) == Coalesce(Whole(x, k, y))
  {
    hide Merged, KeyedMerged, Fitting, Halves, Whole;
    FirstPassesAlike(x, k, y);
    SameDepth(x, k, y);
  }

  /** Two lists of messages that differ at most in one item being in two chunks. */
  ghost predicate Alike(v: seq<Reply>, w: seq<Reply>, k: nat, chunks: Chunks, x: seq<Content>, y: seq<Content>) {
    && |v| == |w| && k < |w|
    && (forall i :: 0 <= i < |w| && i != k ==> v[i] == w[i])
    && v[k].contents == Halves(x, chunks, y)
    && w[k] == v[k].(contents := Whole(x, chunks, y))
  }

  lemma {:induction false} FoldAlike(v: seq<Reply>, w: seq<Reply>, k: nat, chunks: Chunks, x: seq<Content>, y: seq<Content>, u: Update)
    returns (y': seq<Content>)
    requires Alike(v, w, k, chunks, x, y)
    ensures Alike(FoldMessages(v, u), FoldMessages(w, u), k, chunks, x, y')
  {
    y' := y;
    if !StartsMessage(w, u) && k == |w| - 1 {
      y' := y + u.contents;
      assert Halves(x, chunks, y) + u.contents == Halves(x, chunks, y');
      assert Whole(x, chunks, y) + u.contents == Whole(x, chunks, y');
    }
  }

  lemma {:induction false} FoldAllAlike(g: Gathered, f: Gathered, k: nat, chunks: Chunks, x: seq<Content>, y: seq<Content>,
                                        us: seq<Update>)
    returns (y': seq<Content>)
    requires Alike(g.messages, f.messages, k, chunks, x, y) && g == f.(messages := g.messages)
    ensures Alike(FoldAll(g, us).messages, FoldAll(f, us).messages, k, chunks, x, y')
    ensures FoldAll(g, us) == FoldAll(f, us).(messages := FoldAll(g, us).messages)
  {
    if us == [] {
      y' := y;
    } else {
      hide Alike;
      var y1 := FoldAllAlike(g, f, k, chunks, x, y, us[..|us| - 1]);
      y' := FoldAlike(FoldAll(g, us[..|us| - 1]).messages, FoldAll(f, us[..|us| - 1]).messages, k, chunks, x, y1, us[|us| - 1]);
    }
  }

  /** A text or a reasoning that arrives in two chunks, in two updates with the same identity, is
      collected as if it had arrived in one, anywhere in a stream. */
  lemma ChunksDoNotShow(before: seq<Update>, u: Update, after: seq<Update>, x: seq<Content>,
                        chunks: Chunks, y: seq<Content>)
    requires Fitting(chunks) && u.contents == Whole(x, chunks, y)
    ensures var chunked := before + [u.(contents := x + [chunks.first]), u.(contents := [chunks.second] + y)] + after;
      CoalesceReplies(FoldAll(Empty, chunked)) == CoalesceReplies(FoldAll(Empty, before + [u] + after))
  {
    hide FoldAll, CoalesceReplies, Alike;
    var u' := u.(contents := Halves(x, chunks, y));
    assert u'.contents == (x + [chunks.first]) + ([chunks.second] + y);
    SplitAnywhere(before, u', after, x + [chunks.first], [chunks.second] + y);
    var g, f := FoldAll(Empty, before + [u']), FoldAll(Empty, before + [u]);
    var k, x', y' := UpdateAlike(before, u, u', chunks, x, y);
    var y2 := FoldAllAlike(g, f, k, chunks, x', y', after);
    FoldAllConcat(Empty, before + [u'], after);
    FoldAllConcat(Empty, before + [u], after);
    RepliesAlike(FoldAll(g, after), FoldAll(f, after), k, chunks, x', y2);
  }

  lemma RepliesAlike(v: Gathered, w: Gathered, k: nat, chunks: Chunks, x: seq<Content>, y: seq<Content>)
    requires Alike(v.messages, w.messages, k, chunks, x, y) && v == w.(messages := v.messages)
    requires Fitting(chunks)
    ensures CoalesceReplies(v) == CoalesceReplies(w)
  {
    hide Coalesce;
    CoalescedAlike(x, chunks, y);
    forall i | 0 <= i < |w.messages| ensures CoalesceReply(v.messages[i]) == CoalesceReply(w.messages[i]) {
    }
  }

  lemma UpdateAlike(before: seq<Update>, u: Update, u': Update, chunks: Chunks, x: seq<Content>, y: seq<Content>)
    returns (k: nat, x': seq<Content>, y': seq<Content>)
    requires u.contents == Whole(x, chunks, y) && u' == u.(contents := Halves(x, chunks, y))
    ensures var g, f := FoldAll(Empty, before + [u']), FoldAll(Empty, before + [u]);
      Alike(g.messages, f.messages, k, chunks, x', y') && g == f.(messages := g.messages)
  {
    FoldAllConcat(Empty, before, [u']);
    FoldAllConcat(Empty, before, [u]);
    OneUpdate(FoldAll(Empty, before), u);
    OneUpdate(FoldAll(Empty, before), u');
    hide FoldAll;
    var m := FoldAll(Empty, before).messages;
    var base := if StartsMessage(m, u) then NewReply else m[|m| - 1];
    k := if StartsMessage(m, u) then |m| else |m| - 1;
    x', y' := base.contents + x, y;
    assert base.contents + Halves(x, chunks, y) == Halves(x', chunks, y);
    assert base.contents + Whole(x, chunks, y) == Whole(x', chunks, y);
  }
}
