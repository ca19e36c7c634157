/** A message index as a value: counters, what every operation keeps, and incremental updates. */
module IndexState {
  import opened Messages
  import opened Grouping

  // ---------------------------------------------------------------- counters

  predicate Included(g: Group) { !g.excluded }

  predicate IncludedNonSystem(g: Group) { Included(g) && !g.kind.SystemKind? }

  predicate IsRaw(g: Group) { !g.kind.Summary? }

  predicate IncludedRaw(g: Group) { Included(g) && IsRaw(g) }

  function CountIf(v: seq<Group>, p: Group -> bool): (n: nat)
    ensures n <= |v|
  {
    if v == [] then 0 else CountIf(v[..|v| - 1], p) + if p(v[|v| - 1]) then 1 else 0
  }

  /** Sum of `f` over the groups that satisfy `p`. */
  function SumIf(v: seq<Group>, p: Group -> bool, f: Group -> int): int {
    if v == [] then 0 else SumIf(v[..|v| - 1], p, f) + if p(v[|v| - 1]) then f(v[|v| - 1]) else 0
  }

  function NonSystemCount(v: seq<Group>): nat { CountIf(v, IncludedNonSystem) }

  function IncludedTokens(v: seq<Group>): int { SumIf(v, Included, (g: Group) => g.tokenCount) }

  function IncludedRawMessages(v: seq<Group>): int { SumIf(v, IncludedRaw, (g: Group) => g.messageCount) }

  /** The user turns that still have an included group. */
  function IncludedTurns(v: seq<Group>): set<int> {
    set g | g in v && Included(g) && g.turn.Some? && g.turn.value > 0 :: g.turn.value
  }

  function AllTurns(v: seq<Group>): set<int> {
    set g | g in v && g.turn.Some? && g.turn.value > 0 :: g.turn.value
  }

  lemma {:induction false} CountConcat(a: seq<Group>, b: seq<Group>, p: Group -> bool)
    ensures CountIf(a + b, p) == CountIf(a, p) + CountIf(b, p)
  {
    if b == [] {
      assert a + b == a;
    } else {
      CountConcat(a, b[..|b| - 1], p);
      assert (a + b)[..|a + b| - 1] == a + b[..|b| - 1];
    }
  }

  lemma {:induction false} SumConcat(a: seq<Group>, b: seq<Group>, p: Group -> bool, f: Group -> int)
    ensures SumIf(a + b, p, f) == SumIf(a, p, f) + SumIf(b, p, f)
  {
    if b == [] {
      assert a + b == a;
    } else {
      SumConcat(a, b[..|b| - 1], p, f);
      assert (a + b)[..|a + b| - 1] == a + b[..|b| - 1];
    }
  }

  /** The included tokens are those of the included groups, added up. */
  lemma TokensAddUp(a: seq<Group>, g: Group, b: seq<Group>)
    ensures IncludedTokens(a + [g] + b) == IncludedTokens(a) + (if g.excluded then 0 else g.tokenCount) + IncludedTokens(b)
    ensures IncludedTokens([]) == 0
  {
    var tokens := (g: Group) => g.tokenCount;
    assert [g][..0] == [];
    assert SumIf([g], Included, tokens) == if g.excluded then 0 else g.tokenCount;
    hide SumIf;
    SumConcat(a + [g], b, Included, tokens);
    SumConcat(a, [g], Included, tokens);
    SumConcat([], [], Included, tokens);
  }

  /** So are the included original messages. */
  lemma RawMessagesAddUp(a: seq<Group>, g: Group, b: seq<Group>)
    ensures IncludedRawMessages(a + [g] + b)
         == IncludedRawMessages(a) + (if g.excluded || g.kind.Summary? then 0 else g.messageCount) + IncludedRawMessages(b)
    ensures IncludedRawMessages([]) == 0
  {
    var counts := (g: Group) => g.messageCount;
    assert [g][..0] == [];
    assert SumIf([g], IncludedRaw, counts) == if g.excluded || g.kind.Summary? then 0 else g.messageCount;
    hide SumIf;
    SumConcat(a + [g], b, IncludedRaw, counts);
    SumConcat(a, [g], IncludedRaw, counts);
    SumConcat([], [], IncludedRaw, counts);
  }

  ghost function Positions(v: seq<Group>, p: Group -> bool): (s: set<nat>)
    ensures forall i: nat :: i in s <==> i < |v| && p(v[i])
  {
    set i: nat | i < |v| && p(v[i])
  }

  /** Counting groups is counting positions. */
  lemma {:induction false} CountIsSize(v: seq<Group>, p: Group -> bool)
    ensures CountIf(v, p) == |Positions(v, p)|
  {
    if v == [] {
      assert Positions(v, p) == {};
    } else {
      var n := |v| - 1;
      CountIsSize(v[..n], p);
      assert Positions(v, p) == Positions(v[..n], p) + if p(v[n]) then {n} else {};
    }
  }

  // ------------------------------------------------- what compaction may change

  function Exclude(g: Group, reason: string): Group {
    g.(excluded := true, reason := reason)
  }

  /** A group may only go from included to excluded, and a system group stays as it is. */
  ghost predicate Evolves(before: Group, after: Group) {
    && after == before.(excluded := after.excluded, reason := after.reason)
    && (before.excluded || before.kind.SystemKind? ==> after == before)
  }

  /** `after` holds the groups of `before` in order, evolved, with summary groups inserted. */
  ghost predicate Conserves(before: seq<Group>, after: seq<Group>)
    decreases |after|
  {
    || (before == [] && after == [])
    || (before != [] && after != [] && Evolves(before[0], after[0]) && Conserves(before[1..], after[1..]))
    || (after != [] && after[0].kind.Summary? && Conserves(before, after[1..]))
  }

  lemma {:induction false} ConservesPointwise(before: seq<Group>, after: seq<Group>)
    requires |before| == |after|
    requires forall i :: 0 <= i < |before| ==> Evolves(before[i], after[i])
    ensures Conserves(before, after)
    decreases |after|
  {
    if before != [] { ConservesPointwise(before[1..], after[1..]); }
  }

  lemma {:induction false} ConservesInsert(v: seq<Group>, at: nat, g: Group)
    requires at <= |v| && g.kind.Summary?
    ensures Conserves(v, v[..at] + [g] + v[at..])
    decreases at
  {
    var w := v[..at] + [g] + v[at..];
    if at == 0 {
      assert w[1..] == v;
      ConservesPointwise(v, v);
    } else {
      assert w[1..] == v[1..][..at - 1] + [g] + v[1..][at - 1..];
      ConservesInsert(v[1..], at - 1, g);
    }
  }

  /** Conservation composes, so it holds of any number of strategies in a row. */
  lemma {:induction false} ConservesTransitive(a: seq<Group>, b: seq<Group>, c: seq<Group>)
    requires Conserves(a, b) && Conserves(b, c)
    ensures Conserves(a, c)
    decreases |b| + |c|
  {
    if b == [] && c == [] {
    } else if b != [] && c != [] && Evolves(b[0], c[0]) && Conserves(b[1..], c[1..]) {
      if a != [] && Evolves(a[0], b[0]) && Conserves(a[1..], b[1..]) {
        ConservesTransitive(a[1..], b[1..], c[1..]);
      } else {
        ConservesTransitive(a, b[1..], c[1..]);
      }
    } else {
      ConservesTransitive(a, b, c[1..]);
    }
  }

  /** Positions in `after` of the groups of `before`. */
  ghost predicate Embeds(before: seq<Group>, after: seq<Group>, at: seq<nat>) {
    && |at| == |before|
    && (forall i :: 0 <= i < |at| ==> at[i] < |after| && Evolves(before[i], after[at[i]]))
    && (forall i, j :: 0 <= i < j < |at| ==> at[i] < at[j])
    && (forall p: nat :: p < |after| && p !in at ==> after[p].kind.Summary?)
  }

  lemma EmbedsMatch(before: seq<Group>, after: seq<Group>, rest: seq<nat>)
    requires before != [] && after != [] && Evolves(before[0], after[0])
    requires Embeds(before[1..], after[1..], rest)
    ensures Embeds(before, after, [0] + Shift(rest))
  {
    hide Evolves;
    var at := [0] + Shift(rest);
    ShiftMembers(rest);
    forall p: nat | p < |after| && p !in at ensures after[p].kind.Summary? {
      assert at[0] == 0;
      assert after[p] == after[1..][p - 1];
      assert p - 1 !in rest;
    }
    forall i | 0 <= i < |at| ensures at[i] < |after| && Evolves(before[i], after[at[i]]) {
      if i > 0 { assert before[i] == before[1..][i - 1] && after[at[i]] == after[1..][rest[i - 1]]; }
    }
  }

  lemma EmbedsInsert(before: seq<Group>, after: seq<Group>, rest: seq<nat>)
    requires after != [] && after[0].kind.Summary?
    requires Embeds(before, after[1..], rest)
    ensures Embeds(before, after, Shift(rest))
  {
    hide Evolves;
    ShiftMembers(rest);
    forall p: nat | p < |after| && p !in Shift(rest) ensures after[p].kind.Summary? {
      if p > 0 {
        assert after[p] == after[1..][p - 1];
        assert p - 1 !in rest;
      }
    }
  }

  /** Erasing some summary groups of the result leaves exactly the groups compaction started
      from, in their order: nothing else was added, dropped, moved or rewritten. */
  lemma {:induction false} ConservesEmbeds(before: seq<Group>, after: seq<Group>) returns (at: seq<nat>)
    requires Conserves(before, after)
    ensures Embeds(before, after, at)
    decreases |after|
  {
    hide Embeds;
    if before == [] && after == [] {
      at := [];
      NothingEmbeds();
    } else if before != [] && after != [] && Evolves(before[0], after[0]) && Conserves(before[1..], after[1..]) {
      var rest := ConservesEmbeds(before[1..], after[1..]);
      at := [0] + Shift(rest);
      EmbedsMatch(before, after, rest);
    } else {
      var rest := ConservesEmbeds(before, after[1..]);
      at := Shift(rest);
      EmbedsInsert(before, after, rest);
    }
  }

  lemma NothingEmbeds()
    ensures Embeds([], [], [])
  {
  }

  ghost function Shift(at: seq<nat>): (r: seq<nat>)
    ensures |r| == |at| && forall i :: 0 <= i < |at| ==> r[i] == at[i] + 1
  {
    seq(|at|, i requires 0 <= i < |at| => at[i] + 1)
  }

  lemma ShiftMembers(at: seq<nat>)
    ensures forall p: nat :: p in at ==> p + 1 in Shift(at)
  {
    forall p: nat | p in at ensures p + 1 in Shift(at) {
      var i :| 0 <= i < |at| && at[i] == p;
      assert Shift(at)[i] == p + 1;
    }
  }

  // ---------------------------------------------------------------- projections

  ghost function Project(v: seq<Group>, p: Group -> bool): seq<Message> {
    if v == [] then [] else (if p(v[0]) then v[0].messages else []) + Project(v[1..], p)
  }

  ghost predicate IsSubsequence<T(!new)>(a: seq<T>, b: seq<T>) {
    a == [] || (b != [] && ((a[0] == b[0] && IsSubsequence(a[1..], b[1..])) || IsSubsequence(a, b[1..])))
  }

  lemma {:induction false} SubsequencePrepend<T(!new)>(p: seq<T>, a: seq<T>, b: seq<T>, keep: bool)
    requires IsSubsequence(a, b)
    ensures IsSubsequence((if keep then p else []) + a, p + b)
    decreases |p|
  {
    if p == [] {
      assert p + b == b && p + a == a && [] + a == a;
    } else {
      SubsequencePrepend(p[1..], a, b, keep);
      assert (p + b)[1..] == p[1..] + b && (p + b)[0] == p[0];
      if keep {
        assert (p + a)[1..] == p[1..] + a && (p + a)[0] == p[0];
      } else {
        assert [] + a == a;
      }
    }
  }

  predicate IsSystem(g: Group) { g.kind.SystemKind? && Included(g) }

  /** The projected conversation, summaries apart, is a subsequence of the projection before,
      with every included system message still there. */
  lemma {:induction false} ConservesProjection(before: seq<Group>, after: seq<Group>)
    requires Conserves(before, after)
    ensures IsSubsequence(Project(after, IncludedRaw), Project(before, IncludedRaw))
    ensures Project(after, IsSystem) == Project(before, IsSystem)
    decreases |after|
  {
    if before == [] && after == [] {
    } else if before != [] && after != [] && Evolves(before[0], after[0]) && Conserves(before[1..], after[1..]) {
      ConservesProjection(before[1..], after[1..]);
      ProjectsFirst(before, IncludedRaw);
      ProjectsFirst(after, IncludedRaw);
      ProjectsFirst(before, IsSystem);
      ProjectsFirst(after, IsSystem);
      hide Project, IsSubsequence, Conserves;
      SubsequencePrepend(before[0].messages, Project(after[1..], IncludedRaw),
                         Project(before[1..], IncludedRaw), IncludedRaw(after[0]));
      assert [] + Project(after[1..], IncludedRaw) == Project(after[1..], IncludedRaw);
    } else {
      ConservesProjection(before, after[1..]);
      ProjectsFirst(after, IncludedRaw);
      ProjectsFirst(after, IsSystem);
    }
  }

  lemma ProjectsFirst(v: seq<Group>, p: Group -> bool)
    requires v != []
    ensures Project(v, p) == if p(v[0]) then v[0].messages + Project(v[1..], p) else Project(v[1..], p)
  {
    assert [] + Project(v[1..], p) == Project(v[1..], p);
  }

  // ---------------------------------------------------------------- the index invariant

  /** What every index built by grouping, updating and compacting satisfies. */
  ghost predicate WellBuilt(v: seq<Group>, turn: int) {
    && turn >= 0
    && (forall g :: g in v ==> Sound(g))
    && TurnsWithin(v, 0, turn)
    && TurnsSorted(v)
    && (turn > 0 ==> HasTurn(v, turn))
  }

  ghost predicate Sound(g: Group) {
    && g.messages != [] && g.messageCount == |g.messages|
    && (g.kind.SystemKind? ==> g.turn.None?)
    && (!g.excluded ==> g.reason == "")
  }

  lemma ParseWellBuilt(measure: Measure, ms: seq<Message>)
    ensures WellBuilt(Parse(measure, ms, 0), UserCount(ms))
  {
    ParseShapes(measure, ms, 0);
    ParseTurns(measure, ms, 0);
  }

  lemma JoinWellBuilt(v: seq<Group>, w: seq<Group>, turn: int, turn': int)
    requires WellBuilt(v, turn) && turn <= turn'
    requires forall g :: g in w ==> Sound(g)
    requires TurnsWithin(w, turn, turn') && TurnsSorted(w)
    requires turn' > turn ==> HasTurn(w, turn')
    ensures WellBuilt(v + w, turn')
  {
    hide Sound;
    assert TurnsSorted(v + w) by {
      forall i, j | 0 <= i < j < |v + w| && (v + w)[i].turn.Some? && (v + w)[j].turn.Some?
        ensures (v + w)[i].turn.value <= (v + w)[j].turn.value
      {
        if i < |v| <= j { assert v[i] in v && w[j - |v|] in w; }
      }
    }
    if turn' > 0 {
      var base := if turn' > turn then w else v;
      assert HasTurn(base, turn');
      var g :| g in base && OpensTurn(g, turn');
      assert g in v + w;
    }
  }

  lemma ParseSound(measure: Measure, ms: seq<Message>, turn: int)
    ensures forall g :: g in Parse(measure, ms, turn) ==> Sound(g)
  {
    ParseShapes(measure, ms, turn);
    var v := Parse(measure, ms, turn);
    forall g | g in v ensures Sound(g) {
      var i :| 0 <= i < |v| && v[i] == g;
      assert WellFormedGroup(measure, v[i]);
    }
  }

  /** Appending the grouping of further messages keeps the invariant. */
  lemma AppendWellBuilt(measure: Measure, v: seq<Group>, ms: seq<Message>, turn: int)
    requires WellBuilt(v, turn)
    ensures WellBuilt(v + Parse(measure, ms, turn), turn + UserCount(ms))
  {
    hide Parse;
    ParseSound(measure, ms, turn);
    ParseTurns(measure, ms, turn);
    JoinWellBuilt(v, Parse(measure, ms, turn), turn, turn + UserCount(ms));
  }

  lemma ExcludeWellBuilt(v: seq<Group>, i: nat, reason: string, turn: int)
    requires WellBuilt(v, turn) && i < |v|
    ensures WellBuilt(v[i := Exclude(v[i], reason)], turn)
  {
    var w := v[i := Exclude(v[i], reason)];
    forall g | g in w ensures Sound(g) && (g.turn.Some? ==> 0 <= g.turn.value <= turn) {
      var k :| 0 <= k < |w| && w[k] == g;
      assert v[k] in v && Sound(v[k]);
    }
    if turn > 0 {
      var g :| g in v && OpensTurn(g, turn);
      var k :| 0 <= k < |v| && v[k] == g;
      assert w[k] in w && OpensTurn(w[k], turn);
    }
  }

  lemma InsertTurnsSorted(v: seq<Group>, at: nat, g: Group)
    requires TurnsSorted(v) && at <= |v|
    requires g.turn.None? || (at > 0 && g.turn == v[at - 1].turn)
    ensures TurnsSorted(v[..at] + [g] + v[at..])
  {
    var w := v[..at] + [g] + v[at..];
    forall i, j | 0 <= i < j < |w| && w[i].turn.Some? && w[j].turn.Some?
      ensures w[i].turn.value <= w[j].turn.value
    {
      var i' := if i == at then at - 1 else if i < at then i else i - 1;
      var j' := if j == at then at - 1 else if j < at then j else j - 1;
      assert w[i].turn == v[i'].turn && w[j].turn == v[j'].turn;
      assert i' == j' || i' < j';
    }
  }

  /** Inserting a summary keeps the invariant when it carries no turn or the one before it. */
  lemma InsertWellBuilt(v: seq<Group>, at: nat, g: Group, turn: int)
    requires WellBuilt(v, turn) && at <= |v| && Sound(g) && g.kind.Summary?
    requires g.turn.None? || (at > 0 && g.turn == v[at - 1].turn)
    ensures WellBuilt(v[..at] + [g] + v[at..], turn)
  {
    var w := v[..at] + [g] + v[at..];
    InsertTurnsSorted(v, at, g);
    InsertMembers(v, at, g);
    hide Sound, TurnsSorted;
    assert g.turn.Some? ==> v[at - 1] in v;
    if turn > 0 {
      var o :| o in v && OpensTurn(o, turn);
      assert o in w;
    }
  }

  lemma InsertMembers(v: seq<Group>, at: nat, g: Group)
    requires at <= |v|
    ensures forall x :: x in v[..at] + [g] + v[at..] <==> x in v || x == g
  {
    assert v == v[..at] + v[at..];
  }

  // ---------------------------------------------------------------- restoring an index

  /** The last message that grouping put into the index. */
  function LastRaw(v: seq<Group>): Option<Message> {
    if v == [] then None
    else if IsRaw(v[|v| - 1]) && v[|v| - 1].messages != [] then
      Some(v[|v| - 1].messages[|v[|v| - 1].messages| - 1])
    else LastRaw(v[..|v| - 1])
  }

  /** What a backward scan finds that starts with `last` and `turn` already found. */
  function Scan(v: seq<Group>, last: Option<Message>, turn: int): (Option<Message>, int) {
    if v == [] then (last, turn) else
      var g, rest := v[|v| - 1], v[..|v| - 1];
      var last' := if last.None? && IsRaw(g) && g.messages != [] then Some(g.messages[|g.messages| - 1]) else last;
      if g.turn.None? then Scan(rest, last', turn)
      else if last'.Some? then (last', g.turn.value)
      else Scan(rest, last', g.turn.value)
  }

  lemma {:induction false} ScanFindsLast(v: seq<Group>, last: Option<Message>, turn: int)
    ensures Scan(v, last, turn).0 == if last.Some? then last else LastRaw(v)
  {
    if v != [] {
      var g, rest := v[|v| - 1], v[..|v| - 1];
      var last' := if last.None? && IsRaw(g) && g.messages != [] then Some(g.messages[|g.messages| - 1]) else last;
      ScanFindsLast(rest, last', turn);
      if g.turn.Some? { ScanFindsLast(rest, last', g.turn.value); }
    }
  }

  lemma {:induction false} ScanFindsTurn(v: seq<Group>, last: Option<Message>, found: int, turn: int)
    requires forall g :: g in v ==> g.messages != []
    requires TurnsWithin(v, 0, turn) && TurnsSorted(v)
    requires HasTurn(v, turn)
    ensures Scan(v, last, found).1 == turn
  {
    var g, rest := v[|v| - 1], v[..|v| - 1];
    var o :| o in v && OpensTurn(o, turn);
    var k :| 0 <= k < |v| && v[k] == o;
    assert g in v;
    assert g.turn.Some? ==> g.turn.value == turn;
    if k < |v| - 1 {
      assert o in rest;
      assert forall x :: x in rest ==> x in v;
      assert TurnsWithin(rest, 0, turn) && TurnsSorted(rest) && HasTurn(rest, turn);
      var last' := if last.None? && IsRaw(g) && g.messages != [] then Some(g.messages[|g.messages| - 1]) else last;
      ScanFindsTurn(rest, last', found, turn);
      if g.turn.Some? { ScanFindsTurn(rest, last', g.turn.value, turn); }
    }
  }

  /** Some message of the last groups, from the `i`-th on, is no summary. */
  predicate RawFrom(v: seq<Group>, i: nat) {
    exists j :: i <= j < |v| && IsRaw(v[j]) && v[j].messages != []
  }

  /** On any list of groups: the turn is that of the last group that has one and has an original
      message in it or behind it. Where there is none, it is that of the first group that has one. */
  lemma {:induction false} ScanTurnIs(v: seq<Group>, last: Option<Message>, turn: int, t: nat)
    requires t < |v| && v[t].turn.Some?
    requires if last.Some? || RawFrom(v, t) then
        forall i :: t < i < |v| && v[i].turn.Some? ==> last.None? && !RawFrom(v, i)
      else (forall i :: 0 <= i < t ==> v[i].turn.None?)
    ensures Scan(v, last, turn).1 == v[t].turn.value
  {
    var n := |v| - 1;
    var rest, g := v[..n], v[n];
    var raw := IsRaw(g) && g.messages != [];
    var last' := if last.None? && raw then Some(g.messages[|g.messages| - 1]) else last;
    assert forall i: nat :: RawFrom(v, i) <==> (i <= n && raw) || RawFrom(rest, i) by { RawFromStep(v); }
    hide RawFrom;
    if t < n { ScanTurnIs(rest, last', if g.turn.Some? then g.turn.value else turn, t); }
    if t == n && last'.None? { ScanNoTurn(rest, g.turn.value); }
  }

  lemma RawFromStep(v: seq<Group>)
    requires v != []
    ensures var n := |v| - 1; forall i: nat :: RawFrom(v, i) <==> (i <= n && IsRaw(v[n]) && v[n].messages != []) || RawFrom(v[..n], i)
  {
    var n := |v| - 1;
    forall i: nat ensures RawFrom(v, i) <==> (i <= n && IsRaw(v[n]) && v[n].messages != []) || RawFrom(v[..n], i) {
      if j :| i <= j < n && IsRaw(v[..n][j]) && v[..n][j].messages != [] { assert v[j] == v[..n][j]; }
      if j :| i <= j < |v| && IsRaw(v[j]) && v[j].messages != [] {
        if j < n { assert v[j] == v[..n][j]; }
      }
    }
  }

  lemma {:induction false} ScanNoTurn(v: seq<Group>, turn: int)
    requires forall i :: 0 <= i < |v| ==> v[i].turn.None?
    ensures forall last :: Scan(v, last, turn).1 == turn
  {
    if v != [] { ScanNoTurn(v[..|v| - 1], turn); }
  }

  lemma {:induction false} ScanZero(v: seq<Group>, last: Option<Message>)
    requires TurnsWithin(v, 0, 0)
    ensures Scan(v, last, 0).1 == 0
  {
    if v != [] {
      var g, rest := v[|v| - 1], v[..|v| - 1];
      assert g in v && forall x :: x in rest ==> x in v;
      ScanZero(rest, None);
      var last' := if last.None? && IsRaw(g) && g.messages != [] then Some(g.messages[|g.messages| - 1]) else last;
      ScanZero(rest, last');
    }
  }

  /** An index restored from its groups continues where the index that held them stopped. */
  lemma RestoreRecovers(v: seq<Group>, turn: int)
    requires WellBuilt(v, turn)
    ensures Scan(v, None, 0) == (LastRaw(v), turn)
  {
    ScanFindsLast(v, None, 0);
    if turn > 0 {
      assert forall g :: g in v ==> Sound(g);
      ScanFindsTurn(v, None, 0, turn);
    } else {
      ScanZero(v, None);
    }
  }
}
