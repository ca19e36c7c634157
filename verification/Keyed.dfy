/** Merging content items by call ID, wherever they stand in the list. */
module Keyed {
  import opened Messages
  import opened Coalescing
  import opened Contents

  /** Which items a pass collects, their call ID, and how a later one joins an earlier one. */
  datatype KeyedPass = KeyedPass(
    applies: Content -> bool, id: Content -> string, combine: (Content, Content) -> Content)

  ghost predicate LawfulKeyed(p: KeyedPass) {
    && !p.applies(Absent)
    && (forall a, b :: p.applies(a) && p.applies(b) ==> p.applies(p.combine(a, b)))
    && (forall a, b :: p.applies(a) && p.applies(b) && p.id(a) == p.id(b) ==> p.id(p.combine(a, b)) == p.id(a))
  }

  predicate Matches(c: Content, p: KeyedPass, key: string) {
    p.applies(c) && p.id(c) == key
  }

  /** The item at `i` is the first one with its call ID. */
  predicate IsFirst(s: seq<Content>, p: KeyedPass, i: nat)
    requires i < |s|
  {
    p.applies(s[i]) && forall j :: 0 <= j < i ==> !Matches(s[j], p, p.id(s[i]))
  }

  /** The item at `i` joined by the later ones with its call ID, up to position `n`. */
  function Collected(s: seq<Content>, p: KeyedPass, i: nat, n: nat): Content
    requires i < n <= |s|
  {
    if n == i + 1 then s[i]
    else if Matches(s[n - 1], p, p.id(s[i])) then p.combine(Collected(s, p, i, n - 1), s[n - 1])
    else Collected(s, p, i, n - 1)
  }

  /** The list with everything before `n` collected at its first place. */
  function Marked(s: seq<Content>, p: KeyedPass, n: nat): (r: seq<Content>)
    requires n <= |s|
    ensures |r| == |s|
  {
    seq(|s|, i requires 0 <= i < |s| =>
      if i >= n || !p.applies(s[i]) then s[i]
      else if IsFirst(s, p, i) then Collected(s, p, i, n) else Absent)
  }

  function KeyedMerged(s: seq<Content>, p: KeyedPass): seq<Content> {
    Dense(Marked(s, p, |s|))
  }

  /** The index of first places by call ID. */
  ghost predicate Indexes(s: seq<Content>, p: KeyedPass, n: nat, index: map<string, nat>) {
    && n <= |s|
    && (forall key :: key in index ==> index[key] < n && IsFirst(s, p, index[key]) && p.id(s[index[key]]) == key)
    && (forall i :: 0 <= i < n && p.applies(s[i]) ==> p.id(s[i]) in index)
  }

  lemma NoneEarlier(s: seq<Content>, p: KeyedPass, i: nat, j: nat)
    requires i < |s| && j < |s| && IsFirst(s, p, j) && Matches(s[i], p, p.id(s[j]))
    ensures j <= i
  {
  }

  lemma MarkStep(s: seq<Content>, p: KeyedPass, n: nat, index: map<string, nat>)
    requires Indexes(s, p, n, index) && n < |s|
    ensures !p.applies(s[n]) ==> Marked(s, p, n + 1) == Marked(s, p, n)
    ensures p.applies(s[n]) && p.id(s[n]) in index ==>
      var k := index[p.id(s[n])];
      Marked(s, p, n + 1) == Marked(s, p, n)[k := p.combine(Marked(s, p, n)[k], s[n])][n := Absent]
    ensures p.applies(s[n]) && p.id(s[n]) !in index ==> Marked(s, p, n + 1) == Marked(s, p, n)
    ensures p.applies(s[n]) && p.id(s[n]) !in index ==> IsFirst(s, p, n)
  {
    if p.applies(s[n]) && p.id(s[n]) in index {
      var k := index[p.id(s[n])];
      forall i: nat | i < n && i != k && IsFirst(s, p, i) ensures Collected(s, p, i, n + 1) == Collected(s, p, i, n) {
        if p.id(s[i]) == p.id(s[n]) {
          NoneEarlier(s, p, i, k);
          NoneEarlier(s, p, k, i);
        }
      }
      assert !IsFirst(s, p, n) by { assert Matches(s[k], p, p.id(s[n])); }
    }
  }

  /** The keyed loop: later items join the first one with their ID and become nil. */
  method CoalesceKeyed(a: array<Content>, n: nat, p: KeyedPass) returns (m: nat)
    requires n <= a.Length
    modifies a
    ensures m <= n && a[..m] == KeyedMerged(old(a[..n]), p)
    ensures forall i :: m <= i < n ==> a[i].Absent?
    ensures a[n..] == old(a[n..])
  {
    hide Marked, IsFirst, Dense;
    ghost var s := a[..n];
    var indexByCallId: map<string, nat> := map[];
    MarkNone(s, p);
    for i := 0 to n
      invariant Indexes(s, p, i, indexByCallId)
      invariant a[..n] == Marked(s, p, i) && a[n..] == old(a[n..])
    {
      MarkStep(s, p, i, indexByCallId);
      Unmarked(s, p, i);
      ghost var before := Marked(s, p, i);
      var item := a[i];
      assert item == before[i];
      if !p.applies(item) { continue; }
      var key := p.id(item);
      if key in indexByCallId {
        var k := indexByCallId[key];
        assert a[k] == before[k];
        a[k] := p.combine(a[k], item);
        a[i] := Absent;
        assert a[..n] == before[k := p.combine(before[k], s[i])][i := Absent];
      } else {
        indexByCallId := indexByCallId[key := i];
      }
    }
    m := DeleteAbsent(a, n);
  }

  lemma MarkNone(s: seq<Content>, p: KeyedPass)
    ensures Marked(s, p, 0) == s
  {
  }

  lemma Unmarked(s: seq<Content>, p: KeyedPass, i: nat)
    requires i < |s|
    ensures Marked(s, p, i)[i] == s[i]
  {
  }

  // ---------------------------------------------------------------- what the passes keep

  lemma {:induction false} CollectedFits(s: seq<Content>, p: KeyedPass, i: nat, n: nat)
    requires i < n <= |s| && p.applies(s[i]) && LawfulKeyed(p)
    ensures Matches(Collected(s, p, i, n), p, p.id(s[i]))
  {
    if n > i + 1 { CollectedFits(s, p, i, n - 1); }
  }

  lemma {:induction false} GatherPointwise<T>(s: seq<Content>, t: seq<Content>, f: Content -> seq<T>)
    requires |s| == |t| && forall i :: 0 <= i < |s| ==> f(s[i]) == f(t[i])
    ensures Gather(s, f) == Gather(t, f)
  {
    if s != [] { GatherPointwise(s[1..], t[1..], f); }
  }

  /** What is read off the other items stays as it is. */
  lemma KeyedKeeps<T>(s: seq<Content>, p: KeyedPass, f: Content -> seq<T>)
    requires LawfulKeyed(p) && f(Absent) == [] && forall c :: p.applies(c) ==> f(c) == []
    ensures Gather(KeyedMerged(s, p), f) == Gather(s, f)
  {
    var t := Marked(s, p, |s|);
    forall i: nat | i < |s| ensures f(t[i]) == f(s[i]) {
      if p.applies(s[i]) && IsFirst(s, p, i) { CollectedFits(s, p, i, |s|); }
    }
    GatherPointwise(s, t, f);
    GatherDense(t, f);
  }

  /** No two items of the pass share a call ID. */
  ghost predicate NoRepeats(s: seq<Content>, p: KeyedPass) {
    forall i, j :: 0 <= i < j < |s| && p.applies(s[i]) && p.applies(s[j]) ==> p.id(s[i]) != p.id(s[j])
  }

  /** Afterwards every call ID occurs once. */
  lemma OnePerCallId(s: seq<Content>, p: KeyedPass)
    requires LawfulKeyed(p)
    ensures NoRepeats(KeyedMerged(s, p), p)
  {
    var t := Marked(s, p, |s|);
    forall i: nat, j: nat | i < j < |s| && p.applies(t[i]) && p.applies(t[j]) ensures p.id(t[i]) != p.id(t[j]) {
      MarkedOnce(s, p, i, j);
    }
    DenseRepeats(t, p);
  }

  lemma {:induction false} DenseRepeats(s: seq<Content>, p: KeyedPass)
    requires NoRepeats(s, p)
    ensures NoRepeats(Dense(s), p) && forall c :: c in Dense(s) ==> c in s
  {
    if s != [] {
      var n := |s| - 1;
      DenseRepeats(s[..n], p);
      var d := Dense(s[..n]);
      forall i | 0 <= i < |d| && p.applies(d[i]) && p.applies(s[n]) ensures p.id(d[i]) != p.id(s[n]) {
        assert d[i] in s[..n];
      }
    }
  }

  lemma MarkedOnce(s: seq<Content>, p: KeyedPass, i: nat, j: nat)
    requires LawfulKeyed(p) && i < j < |s|
    ensures var t := Marked(s, p, |s|); !(p.applies(t[i]) && p.applies(t[j]) && p.id(t[i]) == p.id(t[j]))
  {
    var t := Marked(s, p, |s|);
    if p.applies(t[i]) && p.applies(t[j]) {
      CollectedFits(s, p, i, |s|);
      CollectedFits(s, p, j, |s|);
      if p.id(s[i]) == p.id(s[j]) { NoneEarlier(s, p, i, j); }
    }
  }

  const IMAGES := KeyedPass(
    (c: Content) => c.ImageResult?,
    CallIdOf,
    (a: Content, b: Content) => b)

  /** An earlier web search call joined by a later one: queries in order, missing header parts
      taken from the later one. */
  function JoinSearch(a: Content, b: Content): Content {
    if !a.WebSearchCall? || !b.WebSearchCall? then b
    else
      var header := Header(
        if a.header.properties.None? then b.header.properties else a.header.properties,
        if a.header.annotations.None? then b.header.annotations else a.header.annotations);
      WebSearchCall(header, a.callId, a.queries + b.queries)
  }

  const SEARCHES := KeyedPass((c: Content) => c.WebSearchCall?, CallIdOf, JoinSearch)

  lemma KeyedPassesLawful()
    ensures LawfulKeyed(IMAGES) && LawfulKeyed(SEARCHES)
  {
  }

  /** Of the image results with one call ID the last one is kept, at the place of the first. */
  lemma {:induction false} LastImageWins(s: seq<Content>, i: nat, j: nat, n: nat)
    requires i <= j < n <= |s| && s[i].ImageResult? && s[j].ImageResult? && s[j].callId == s[i].callId
    requires forall k :: j < k < n ==> !Matches(s[k], IMAGES, s[i].callId)
    ensures Collected(s, IMAGES, i, n) == s[j]
  {
    if n > j + 1 {
      LastImageWins(s, i, j, n - 1);
    } else if i < j {
      assert Matches(s[j], IMAGES, s[i].callId);
    }
  }

  function QueriesFor(c: Content, key: string): seq<string> {
    if Matches(c, SEARCHES, key) then c.queries else []
  }

  /** The collected call has the queries of all calls with its ID, in order. */
  lemma {:induction false} SearchKeepsQueries(s: seq<Content>, i: nat, n: nat)
    requires i < n <= |s| && s[i].WebSearchCall? && IsFirst(s, SEARCHES, i)
    ensures Collected(s, SEARCHES, i, n).WebSearchCall?
    ensures Collected(s, SEARCHES, i, n).queries == Gather(s[..n], c => QueriesFor(c, s[i].callId))
  {
    var f := c => QueriesFor(c, s[i].callId);
    assert s[..n] == s[..n - 1] + [s[n - 1]];
    GatherConcat(s[..n - 1], [s[n - 1]], f);
    GatherOne(s[n - 1], f);
    if n > i + 1 {
      SearchKeepsQueries(s, i, n - 1);
    } else {
      GatherNothing(s[..i], f);
    }
  }
}
