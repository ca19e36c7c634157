/** Dropping the oldest user turns, stated on values. */
module Windowing {
  import opened Messages
  import opened Grouping
  import opened IndexState
  import opened Compaction

  const WINDOWED := "excluded by SlidingWindowStrategy"

  /** A group the sliding window may exclude: it belongs to a user turn. */
  predicate InTurn(g: Group) {
    IncludedNonSystem(g) && g.turn.Some? && g.turn.value > 0
  }

  predicate TurnPresent(v: seq<Group>, t: int) {
    exists g :: g in v && InTurn(g) && g.turn.value == t
  }

  ghost predicate Distinct(s: seq<int>) {
    forall i, j :: 0 <= i < j < |s| ==> s[i] != s[j]
  }

  /** The turns with such groups, in order of first appearance. */
  function TurnOrder(v: seq<Group>): seq<int> {
    if v == [] then [] else
      var rest, g := TurnOrder(v[..|v| - 1]), v[|v| - 1];
      if InTurn(g) && g.turn.value !in rest then rest + [g.turn.value] else rest
  }

  lemma {:induction false} TurnOrderIs(v: seq<Group>)
    ensures Distinct(TurnOrder(v))
    ensures forall t :: t in TurnOrder(v) <==> TurnPresent(v, t)
  {
    if v != [] {
      var init, g := v[..|v| - 1], v[|v| - 1];
      TurnOrderIs(init);
      assert v == init + [g];
      forall t ensures TurnPresent(v, t) <==> TurnPresent(init, t) || (InTurn(g) && g.turn.value == t) {}
    }
  }

  /** All groups of the given turns excluded, everything else as it was. */
  function ExcludeTurns(v: seq<Group>, turns: seq<int>): (w: seq<Group>)
    ensures |w| == |v|
  {
    seq(|v|, i requires 0 <= i < |v| =>
      if InTurn(v[i]) && v[i].turn.value in turns then Exclude(v[i], WINDOWED) else v[i])
  }

  ghost predicate StopsAtTurn(v: seq<Group>, target: Trigger, most: int, k: nat) {
    && 1 <= k <= most <= |TurnOrder(v)|
    && (k == most || target(ExcludeTurns(v, TurnOrder(v)[..k])))
    && (forall j: nat :: 1 <= j < k ==> !target(ExcludeTurns(v, TurnOrder(v)[..j])))
  }

  ghost predicate WindowOutcome(v: seq<Group>, w: seq<Group>, trigger: Option<Trigger>, target: Option<Trigger>,
                                floor: nat, compacted: bool)
  {
    if ShouldCompact(v, trigger) && |TurnOrder(v)| > floor then
      compacted && exists k: nat ::
        && StopsAtTurn(v, TargetOf(trigger, target), |TurnOrder(v)| - floor, k)
        && w == ExcludeTurns(v, TurnOrder(v)[..k])
    else
      !compacted && w == v
  }

  lemma ExcludeTurnsEvolves(v: seq<Group>, turns: seq<int>)
    ensures Conserves(v, ExcludeTurns(v, turns))
    ensures forall turn :: WellBuilt(v, turn) ==> WellBuilt(ExcludeTurns(v, turns), turn)
  {
    var w := ExcludeTurns(v, turns);
    ConservesPointwise(v, w);
    forall turn | WellBuilt(v, turn) ensures WellBuilt(w, turn) {
      SoundReason(v, turn);
      FlagsWellBuilt(v, w, turn);
    }
  }

  /** Where system groups have no turn, the included turns are exactly the turn order. */
  lemma OrderIsIncludedTurns(v: seq<Group>)
    requires forall g :: g in v ==> Sound(g)
    ensures Distinct(TurnOrder(v))
    ensures forall t :: t in TurnOrder(v) <==> t in IncludedTurns(v)
    ensures |IncludedTurns(v)| == |TurnOrder(v)|
  {
    TurnOrderIs(v);
    forall g | g in v && Included(g) && g.turn.Some? && g.turn.value > 0 ensures InTurn(g) { assert Sound(g); }
    forall t ensures TurnPresent(v, t) <==> t in IncludedTurns(v) {}
    DistinctSize(TurnOrder(v));
    assert IncludedTurns(v) == set t | t in TurnOrder(v);
  }

  lemma {:induction false} DistinctSize(s: seq<int>)
    requires Distinct(s)
    ensures |set t | t in s| == |s|
  {
    if s != [] {
      var init, last := s[..|s| - 1], s[|s| - 1];
      DistinctSize(init);
      assert s == init + [last];
      assert (set t | t in s) == (set t | t in init) + {last};
    }
  }

  lemma StillIncluded(v: seq<Group>, gone: seq<int>, t: int)
    requires forall g :: g in v ==> Sound(g)
    ensures t in IncludedTurns(ExcludeTurns(v, gone)) <==> t in IncludedTurns(v) && t !in gone
  {
    var w := ExcludeTurns(v, gone);
    if t in IncludedTurns(w) {
      var i :| 0 <= i < |w| && Included(w[i]) && w[i].turn == Some(t) && t > 0;
      assert v[i] in v && Sound(v[i]) && InTurn(v[i]);
    }
    if t in IncludedTurns(v) && t !in gone {
      var i :| 0 <= i < |v| && Included(v[i]) && v[i].turn == Some(t) && t > 0;
      assert w[i] == v[i] && w[i] in w;
    }
  }

  /** Dropping the first `k` turns of the order removes exactly them from the included turns. */
  lemma DroppedTurns(v: seq<Group>, k: nat)
    requires forall g :: g in v ==> Sound(g)
    requires k <= |TurnOrder(v)|
    ensures var order := TurnOrder(v);
      var w := ExcludeTurns(v, order[..k]);
      && (forall t :: t in IncludedTurns(w) <==> t in order[k..])
      && |IncludedTurns(w)| == |IncludedTurns(v)| - k
  {
    OrderIsIncludedTurns(v);
    hide ExcludeTurns, IncludedTurns, TurnOrder, Sound;
    var order := TurnOrder(v);
    var w := ExcludeTurns(v, order[..k]);
    forall t ensures t in IncludedTurns(w) <==> t in order[k..] {
      StillIncluded(v, order[..k], t);
      if t in order { TurnOnOneSide(order, k, t); }
    }
    DistinctSize(order[k..]);
    assert IncludedTurns(w) == set t | t in order[k..];
  }

  lemma TurnOnOneSide(order: seq<int>, k: nat, t: int)
    requires k <= |order| && t in order && Distinct(order)
    ensures t in order[..k] <==> t !in order[k..]
  {
    var i :| 0 <= i < |order| && order[i] == t;
    if i < k {
      assert order[..k][i] == t;
    } else {
      assert order[k..][i - k] == t;
    }
  }

  ghost predicate Ascends(s: seq<int>) {
    forall i, j :: 0 <= i < j < |s| ==> s[i] < s[j]
  }

  lemma YoungestTurn(v: seq<Group>, t: int)
    requires TurnsSorted(v) && v != [] && InTurn(v[|v| - 1])
    requires TurnPresent(v[..|v| - 1], t)
    ensures t <= v[|v| - 1].turn.value
  {
    var g :| g in v[..|v| - 1] && InTurn(g) && g.turn.value == t;
    var j :| 0 <= j < |v| - 1 && v[j] == g;
  }

  /** The order of appearance is the order of age. */
  lemma {:induction false} OrderAscends(v: seq<Group>)
    requires TurnsSorted(v)
    ensures Ascends(TurnOrder(v))
  {
    if v != [] {
      var n := |v| - 1;
      var rest, g := TurnOrder(v[..n]), v[n];
      OrderAscends(v[..n]);
      TurnOrderIs(v[..n]);
      assert TurnOrder(v) == if InTurn(g) && g.turn.value !in rest then rest + [g.turn.value] else rest;
      hide TurnOrder, TurnsSorted, TurnPresent;
      if InTurn(g) && g.turn.value !in rest {
        forall i | 0 <= i < |rest| ensures rest[i] < g.turn.value {
          assert rest[i] in rest;
          YoungestTurn(v, rest[i]);
        }
      }
    }
  }

  /** The sliding window works on whole turns: it drops the oldest ones completely, as many as
      the included turn count falls by, and touches nothing without a turn. */
  ghost predicate DropsOldestTurns(v: seq<Group>, w: seq<Group>) {
    && |w| == |v|
    && IncludedTurns(w) <= IncludedTurns(v)
    && (forall i :: 0 <= i < |v| ==>
          w[i] == if InTurn(v[i]) && v[i].turn.value !in IncludedTurns(w) then Exclude(v[i], WINDOWED) else v[i])
    && (forall gone, kept :: gone in IncludedTurns(v) && gone !in IncludedTurns(w) && kept in IncludedTurns(w) ==> gone < kept)
  }

  lemma FrontIsOlder(order: seq<int>, k: nat, gone: int, kept: int)
    requires Ascends(order) && k <= |order|
    requires gone in order && gone !in order[k..] && kept in order[k..]
    ensures gone < kept
  {
    TurnOnOneSide(order, k, gone);
    var i :| 0 <= i < k && order[..k][i] == gone;
    var j :| 0 <= j < |order| - k && order[k..][j] == kept;
  }

  lemma WholeTurnsOnly(v: seq<Group>, k: nat, i: nat)
    requires k <= |TurnOrder(v)| && i < |v|
    ensures ExcludeTurns(v, TurnOrder(v)[..k])[i]
         == if InTurn(v[i]) && v[i].turn.value !in TurnOrder(v)[k..] then Exclude(v[i], WINDOWED) else v[i]
  {
    TurnOrderIs(v);
    if InTurn(v[i]) {
      assert TurnPresent(v, v[i].turn.value);
      TurnOnOneSide(TurnOrder(v), k, v[i].turn.value);
    }
  }

  lemma DropsWholeTurns(v: seq<Group>, k: nat)
    requires (forall g :: g in v ==> Sound(g)) && TurnsSorted(v) && k <= |TurnOrder(v)|
    ensures DropsOldestTurns(v, ExcludeTurns(v, TurnOrder(v)[..k]))
  {
    var order := TurnOrder(v);
    var w := ExcludeTurns(v, order[..k]);
    OrderIsIncludedTurns(v);
    DroppedTurns(v, k);
    OrderAscends(v);
    hide TurnOrder, IncludedTurns, TurnsSorted, Sound, ExcludeTurns, Ascends, Distinct;
    forall i: nat | i < |v|
      ensures w[i] == if InTurn(v[i]) && v[i].turn.value !in IncludedTurns(w) then Exclude(v[i], WINDOWED) else v[i]
    {
      WholeTurnsOnly(v, k, i);
    }
    forall t | t in IncludedTurns(w) ensures t in IncludedTurns(v) { InTail(order, k, t); }
    forall gone, kept | gone in IncludedTurns(v) && gone !in IncludedTurns(w) && kept in IncludedTurns(w) ensures gone < kept {
      FrontIsOlder(order, k, gone, kept);
    }
  }

  lemma InTail(order: seq<int>, k: nat, t: int)
    requires k <= |order| && t in order[k..]
    ensures t in order
  {
  }

  /** When the window runs it ends with its target met or exactly the floor of turns left. */
  lemma WindowBounds(v: seq<Group>, w: seq<Group>, turn: int, trigger: Option<Trigger>,
                     target: Option<Trigger>, floor: nat, compacted: bool)
    requires WindowOutcome(v, w, trigger, target, floor, compacted) && WellBuilt(v, turn)
    ensures Conserves(v, w) && WellBuilt(w, turn)
    ensures DropsOldestTurns(v, w)
    ensures |IncludedTurns(w)| >= if floor <= |IncludedTurns(v)| then floor else |IncludedTurns(v)|
    ensures compacted ==> |IncludedTurns(w)| < |IncludedTurns(v)|
    ensures compacted ==> |IncludedTurns(w)| == floor || TargetOf(trigger, target)(w)
  {
    OrderIsIncludedTurns(v);
    var k: nat := 0;
    if compacted {
      k :| StopsAtTurn(v, TargetOf(trigger, target), |TurnOrder(v)| - floor, k) && w == ExcludeTurns(v, TurnOrder(v)[..k]);
    } else {
      assert w == ExcludeTurns(v, TurnOrder(v)[..0]);
    }
    hide DropsOldestTurns, Conserves, TurnOrder, IncludedTurns;
    DroppedTurns(v, k);
    ExcludeTurnsEvolves(v, TurnOrder(v)[..k]);
    DropsWholeTurns(v, k);
  }

  /** With the target that a trigger implies, sliding the window again changes nothing. */
  lemma WindowSettles(v: seq<Group>, w: seq<Group>, w': seq<Group>, turn: int, trigger: Option<Trigger>, floor: nat, c: bool, c': bool)
    requires WellBuilt(v, turn)
    requires WindowOutcome(v, w, trigger, None, floor, c) && WindowOutcome(w, w', trigger, None, floor, c')
    ensures !c' && w' == w
  {
    hide TurnOrder, IncludedTurns, StopsAtTurn, DropsOldestTurns, Conserves;
    WindowBounds(v, w, turn, trigger, None, floor, c);
    OrderIsIncludedTurns(w);
  }
}
