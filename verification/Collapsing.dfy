/** Collapsing old tool-call groups into summaries, stated on values. */
module Collapsing {
  import opened Messages
  import opened Grouping
  import opened IndexState
  import opened Compaction

  const COLLAPSED := "collapsed by ToolResultStrategy"

  type Formatter = Group -> string

  function SummaryOf(measure: Measure, g: Group, format: Formatter): Group {
    NewGroup(measure, Summary, [TextMessage(Assistant, format(g), true)], g.turn)
  }

  /** An included tool call outside the protected window of recent groups. */
  predicate IsEligible(v: seq<Group>, i: nat, floor: nat)
    requires i < |v|
  {
    Included(v[i]) && v[i].kind.ToolCall? && Rank(v, i) < NonSystemCount(v) - floor
  }

  function EligibleBefore(v: seq<Group>, floor: nat, n: nat): (e: seq<nat>)
    requires n <= |v|
    ensures forall i :: 0 <= i < |e| ==> e[i] < n && IsEligible(v, e[i], floor)
    ensures forall i, j :: 0 <= i < j < |e| ==> e[i] < e[j]
    ensures forall i: nat :: i < n && IsEligible(v, i, floor) ==> i in e
  {
    if n == 0 then [] else EligibleBefore(v, floor, n - 1) + if IsEligible(v, n - 1, floor) then [n - 1] else []
  }

  /** Positions of the eligible groups, oldest first. */
  function Eligible(v: seq<Group>, floor: nat): seq<nat> {
    EligibleBefore(v, floor, |v|)
  }

  ghost predicate Ascending(marks: seq<nat>, bound: nat) {
    && (forall i :: 0 <= i < |marks| ==> marks[i] < bound)
    && (forall i, j :: 0 <= i < j < |marks| ==> marks[i] < marks[j])
  }

  /** The marked groups excluded, each directly followed by its summary; the rest as it was. */
  function Collapse(measure: Measure, v: seq<Group>, marks: seq<nat>, format: Formatter): seq<Group> {
    if v == [] then [] else
      var n := |v| - 1;
      Collapse(measure, v[..n], marks, format)
      + if n in marks then [Exclude(v[n], COLLAPSED), SummaryOf(measure, v[n], format)] else [v[n]]
  }

  ghost predicate StopsCollapsing(measure: Measure, v: seq<Group>, eligible: seq<nat>, format: Formatter,
                                  target: Trigger, k: nat)
  {
    && 1 <= k <= |eligible|
    && (k == |eligible| || target(Collapse(measure, v, eligible[..k], format)))
    && (forall j: nat :: 1 <= j < k ==> !target(Collapse(measure, v, eligible[..j], format)))
  }

  ghost predicate ToolResultOutcome(measure: Measure, v: seq<Group>, w: seq<Group>, trigger: Option<Trigger>,
                                    target: Option<Trigger>, floor: nat, format: Formatter, compacted: bool)
  {
    if ShouldCompact(v, trigger) && Eligible(v, floor) != [] then
      compacted && exists k: nat ::
        && StopsCollapsing(measure, v, Eligible(v, floor), format, TargetOf(trigger, target), k)
        && w == Collapse(measure, v, Eligible(v, floor)[..k], format)
    else
      !compacted && w == v
  }

  // ------------------------------------------------- positions

  lemma {:induction false} CollapseIrrelevant(measure: Measure, v: seq<Group>, marks: seq<nat>, e: nat, format: Formatter)
    requires e >= |v|
    ensures Collapse(measure, v, marks + [e], format) == Collapse(measure, v, marks, format)
  {
    if v != [] { CollapseIrrelevant(measure, v[..|v| - 1], marks, e, format); }
  }

  lemma {:induction false} CollapseNone(measure: Measure, v: seq<Group>, format: Formatter)
    ensures Collapse(measure, v, [], format) == v
  {
    if v != [] { CollapseNone(measure, v[..|v| - 1], format); }
  }

  /** Every mark lengthens the list by one. */
  lemma {:induction false} CollapseLength(measure: Measure, v: seq<Group>, marks: seq<nat>, format: Formatter)
    requires Ascending(marks, |v|)
    ensures |Collapse(measure, v, marks, format)| == |v| + |marks|
  {
    if v != [] {
      var n := |v| - 1;
      if n in marks {
        var init := marks[..|marks| - 1];
        assert marks[|marks| - 1] == n;
        assert marks == init + [n];
        CollapseLength(measure, v[..n], init, format);
        CollapseIrrelevant(measure, v[..n], init, n, format);
      } else {
        CollapseLength(measure, v[..n], marks, format);
      }
    }
  }

  /** From the first position after all marks on, nothing changes but the positions. */
  lemma {:induction false} CollapseSuffix(measure: Measure, v: seq<Group>, marks: seq<nat>, e: nat, format: Formatter)
    requires Ascending(marks, e) && e <= |v|
    ensures Collapse(measure, v, marks, format) == Collapse(measure, v[..e], marks, format) + v[e..]
    decreases |v| - e
  {
    if e == |v| {
      assert v[..e] == v;
    } else {
      var n := |v| - 1;
      CollapseSuffix(measure, v[..n], marks, e, format);
      assert v[..n][..e] == v[..e] && v[..n][e..] + [v[n]] == v[e..];
    }
  }

  /** After `|marks|` collapses the next eligible group is found `|marks|` places further, and
      excluding it there with its summary behind it marks it, too. */
  lemma CollapseNext(measure: Measure, v: seq<Group>, marks: seq<nat>, e: nat, format: Formatter)
    requires Ascending(marks, e) && e < |v|
    ensures var c := Collapse(measure, v, marks, format);
      var at := e + |marks|;
      && at < |c| && c[at] == v[e]
      && InsertAt(c[at := Exclude(c[at], COLLAPSED)], at + 1, SummaryOf(measure, v[e], format))
         == Collapse(measure, v, marks + [e], format)
  {
    hide *;
    CollapseBoth(measure, v, marks, e, format);
    InsertBehind(Collapse(measure, v[..e], marks, format), v[e], Exclude(v[e], COLLAPSED), SummaryOf(measure, v[e], format), v[e + 1..]);
  }

  /** The list around the next mark, before and after it is set. */
  lemma CollapseBoth(measure: Measure, v: seq<Group>, marks: seq<nat>, e: nat, format: Formatter)
    requires Ascending(marks, e) && e < |v|
    ensures var head, tail := Collapse(measure, v[..e], marks, format), v[e + 1..];
      && |head| == e + |marks|
      && Collapse(measure, v, marks, format) == head + ([v[e]] + tail)
      && Collapse(measure, v, marks + [e], format) == head + [Exclude(v[e], COLLAPSED), SummaryOf(measure, v[e], format)] + tail
  {
    assert Ascending(marks + [e], e + 1) by { AscendingMore(marks, e); }
    assert v[e..] == [v[e]] + v[e + 1..];
    hide *;
    assert Ascending(marks, |v[..e]|);
    CollapseLength(measure, v[..e], marks, format);
    CollapseSuffix(measure, v, marks, e, format);
    MarkLast(measure, v, marks, e, format);
    CollapseSuffix(measure, v, marks + [e], e + 1, format);
  }

  lemma AscendingMore(marks: seq<nat>, e: nat)
    requires Ascending(marks, e)
    ensures Ascending(marks + [e], e + 1)
  {
  }

  lemma MarkLast(measure: Measure, v: seq<Group>, marks: seq<nat>, e: nat, format: Formatter)
    requires Ascending(marks, e) && e < |v|
    ensures Collapse(measure, v[..e + 1], marks + [e], format)
         == Collapse(measure, v[..e], marks, format) + [Exclude(v[e], COLLAPSED), SummaryOf(measure, v[e], format)]
  {
    var w := v[..e + 1];
    assert w[..e] == v[..e] && w[e] == v[e] && e in marks + [e];
    assert Collapse(measure, w, marks + [e], format)
        == Collapse(measure, w[..e], marks + [e], format) + [Exclude(w[e], COLLAPSED), SummaryOf(measure, w[e], format)];
    hide Collapse, SummaryOf, Exclude;
    CollapseIrrelevant(measure, v[..e], marks, e, format);
  }

  /** Replacing one group and inserting another behind it. */
  lemma InsertBehind(head: seq<Group>, g: Group, g': Group, s: Group, tail: seq<Group>)
    ensures var c, at := head + ([g] + tail), |head|;
      c[at] == g && InsertAt(c[at := g'], at + 1, s) == head + [g', s] + tail
  {
    var c := head + ([g] + tail);
    assert c[|head| := g'] == head + [g'] + tail;
    assert (head + [g'] + tail)[..|head| + 1] == head + [g'];
    assert (head + [g'] + tail)[|head| + 1..] == tail;
  }

  // ------------------------------------------------- what collapsing keeps

  lemma {:induction false} ConservesConcat(a: seq<Group>, b: seq<Group>, c: seq<Group>, d: seq<Group>)
    requires Conserves(a, b) && Conserves(c, d)
    ensures Conserves(a + c, b + d)
    decreases |b|
  {
    if a == [] && b == [] {
      assert a + c == c && b + d == d;
    } else if a != [] && b != [] && Evolves(a[0], b[0]) && Conserves(a[1..], b[1..]) {
      ConservesConcat(a[1..], b[1..], c, d);
      assert (a + c)[1..] == a[1..] + c && (b + d)[1..] == b[1..] + d;
    } else {
      ConservesConcat(a, b[1..], c, d);
      assert (b + d)[1..] == b[1..] + d;
    }
  }

  ghost predicate MarksToolCalls(v: seq<Group>, marks: seq<nat>) {
    forall i :: i in marks && i < |v| ==> Included(v[i]) && v[i].kind.ToolCall?
  }

  lemma {:induction false} CollapseConserves(measure: Measure, v: seq<Group>, marks: seq<nat>, format: Formatter)
    requires MarksToolCalls(v, marks)
    ensures Conserves(v, Collapse(measure, v, marks, format))
  {
    if v != [] {
      var n := |v| - 1;
      CollapseConserves(measure, v[..n], marks, format);
      var g, s := v[n], SummaryOf(measure, v[n], format);
      assert s.kind.Summary?;
      assert n in marks ==> !g.kind.SystemKind? && Included(g);
      hide Conserves, SummaryOf;
      OneConserves(g, s, n in marks);
      var tail := if n in marks then [Exclude(g, COLLAPSED), s] else [g];
      ConservesConcat(v[..n], Collapse(measure, v[..n], marks, format), [g], tail);
      assert v == v[..n] + [v[n]];
    }
  }

  lemma OneConserves(g: Group, s: Group, marked: bool)
    requires s.kind.Summary? && (marked ==> !g.kind.SystemKind? && Included(g))
    ensures Conserves([g], if marked then [Exclude(g, COLLAPSED), s] else [g])
  {
    assert Conserves([], []);
    if marked {
      var x := Exclude(g, COLLAPSED);
      assert [s][1..] == [];
      assert Conserves([], [s]);
      assert [g][1..] == [] && [x, s][1..] == [s];
      assert Evolves(g, x);
      assert Conserves([g], [x, s]);
    } else {
      assert [g][1..] == [] && Evolves(g, g);
    }
  }

  lemma {:induction false} CollapseCount(measure: Measure, v: seq<Group>, marks: seq<nat>, format: Formatter,
                                         p: Group -> bool)
    requires forall i :: i in marks && i < |v| ==>
      p(v[i]) && !p(Exclude(v[i], COLLAPSED)) && p(SummaryOf(measure, v[i], format))
    ensures CountIf(Collapse(measure, v, marks, format), p) == CountIf(v, p)
  {
    if v != [] {
      hide SummaryOf;
      var n := |v| - 1;
      var head := Collapse(measure, v[..n], marks, format);
      CollapseCount(measure, v[..n], marks, format, p);
      if n in marks {
        var a, b := Exclude(v[n], COLLAPSED), SummaryOf(measure, v[n], format);
        var w := head + [a, b];
        assert w[..|w| - 1] == head + [a] && (head + [a])[..|head|] == head;
      } else {
        assert (head + [v[n]])[..|head|] == head;
      }
    }
  }

  lemma {:induction false} CollapseTurns(measure: Measure, v: seq<Group>, marks: seq<nat>, format: Formatter)
    requires MarksToolCalls(v, marks)
    ensures IncludedTurns(Collapse(measure, v, marks, format)) == IncludedTurns(v)
  {
    if v != [] {
      hide IncludedTurns;
      var n := |v| - 1;
      var head := Collapse(measure, v[..n], marks, format);
      CollapseTurns(measure, v[..n], marks, format);
      assert v == v[..n] + [v[n]];
      TurnsAppend(v[..n], v[n]);
      if n in marks {
        var a, b := Exclude(v[n], COLLAPSED), SummaryOf(measure, v[n], format);
        TurnsAppend(head + [a], b);
        TurnsAppend(head, a);
        assert head + [a, b] == head + [a] + [b];
      } else {
        TurnsAppend(head, v[n]);
      }
    }
  }

  /** A collapsed group and its summary count as the group did. */
  lemma CollapseCounts(measure: Measure, v: seq<Group>, marks: seq<nat>, format: Formatter)
    requires MarksToolCalls(v, marks)
    ensures var w := Collapse(measure, v, marks, format);
      && CountIf(w, Included) == CountIf(v, Included)
      && NonSystemCount(w) == NonSystemCount(v)
      && IncludedTurns(w) == IncludedTurns(v)
  {
    CollapseCount(measure, v, marks, format, Included);
    CollapseCount(measure, v, marks, format, IncludedNonSystem);
    CollapseTurns(measure, v, marks, format);
  }

  lemma TurnsAppend(v: seq<Group>, g: Group)
    ensures IncludedTurns(v + [g])
         == IncludedTurns(v) + if Included(g) && g.turn.Some? && g.turn.value > 0 then {g.turn.value} else {}
  {
  }

  lemma CollapseOneWellBuilt(measure: Measure, v: seq<Group>, at: nat, format: Formatter, turn: int)
    requires WellBuilt(v, turn) && at < |v|
    ensures WellBuilt(InsertAt(v[at := Exclude(v[at], COLLAPSED)], at + 1, SummaryOf(measure, v[at], format)), turn)
  {
    ExcludeWellBuilt(v, at, COLLAPSED, turn);
    hide WellBuilt;
    InsertWellBuilt(v[at := Exclude(v[at], COLLAPSED)], at + 1, SummaryOf(measure, v[at], format), turn);
  }

  lemma {:induction false} CollapseWellBuilt(measure: Measure, v: seq<Group>, marks: seq<nat>, format: Formatter, turn: int)
    requires WellBuilt(v, turn) && Ascending(marks, |v|)
    ensures WellBuilt(Collapse(measure, v, marks, format), turn)
    decreases |marks|
  {
    if marks == [] {
      CollapseNone(measure, v, format);
    } else {
      var init, e := marks[..|marks| - 1], marks[|marks| - 1];
      assert marks == init + [e];
      assert Ascending(init, e) && Ascending(init, |v|) && e < |v|;
      hide *;
      CollapseWellBuilt(measure, v, init, format, turn);
      CollapseNext(measure, v, init, e, format);
      CollapseOneWellBuilt(measure, Collapse(measure, v, init, format), e + |init|, format, turn);
    }
  }

  lemma EligiblePrefix(v: seq<Group>, floor: nat, k: nat)
    requires k <= |Eligible(v, floor)|
    ensures Ascending(Eligible(v, floor)[..k], |v|) && MarksToolCalls(v, Eligible(v, floor)[..k])
  {
    var marks := Eligible(v, floor)[..k];
    forall i | i in marks ensures IsEligible(v, i, floor) {
      var j :| 0 <= j < |marks| && marks[j] == i;
      assert i == Eligible(v, floor)[j];
    }
  }

  /** The protected window: from the first protected group on, the list is as it was. */
  lemma ProtectedUntouched(measure: Measure, v: seq<Group>, floor: nat, k: nat, first: nat, format: Formatter)
    requires k <= |Eligible(v, floor)| && first < |v|
    requires Rank(v, first) >= NonSystemCount(v) - floor
    ensures var w := Collapse(measure, v, Eligible(v, floor)[..k], format);
      |w| == |v| + k && w[first + k..] == v[first..]
  {
    var e := Eligible(v, floor);
    EligiblePrefix(v, floor, k);
    forall i | 0 <= i < k ensures e[i] < first {
      assert IsEligible(v, e[i], floor);
      if e[i] >= first { RankMonotone(v, first, e[i]); }
    }
    CollapseSuffix(measure, v, e[..k], first, format);
    CollapseLength(measure, v[..first], e[..k], format);
  }

  /** Everything a caller may rely on after tool results were collapsed. */
  lemma ToolResultKeeps(measure: Measure, v: seq<Group>, w: seq<Group>, trigger: Option<Trigger>,
                        target: Option<Trigger>, floor: nat, format: Formatter, compacted: bool)
    requires ToolResultOutcome(measure, v, w, trigger, target, floor, format, compacted)
    ensures CountIf(w, Included) == CountIf(v, Included) && NonSystemCount(w) == NonSystemCount(v)
    ensures IncludedTurns(w) == IncludedTurns(v)
    ensures Conserves(v, w)
    ensures forall turn :: WellBuilt(v, turn) ==> WellBuilt(w, turn)
  {
    if compacted {
      var k: nat :| StopsCollapsing(measure, v, Eligible(v, floor), format, TargetOf(trigger, target), k)
        && w == Collapse(measure, v, Eligible(v, floor)[..k], format);
      var marks := Eligible(v, floor)[..k];
      EligiblePrefix(v, floor, k);
      CollapseCounts(measure, v, marks, format);
      CollapseConserves(measure, v, marks, format);
      forall turn | WellBuilt(v, turn) ensures WellBuilt(w, turn) {
        CollapseWellBuilt(measure, v, marks, format, turn);
      }
    } else {
      ConservesPointwise(v, v);
    }
  }
}
