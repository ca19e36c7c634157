/** Validation of filters that may share and nest sub-filters in any way. */
module Filters {
  import opened Messages

  datatype Operator = And | Or | Not | Comparison | Contains | In | Unknown

  /** A filter node; `operands` are the addresses of its sub-filters. */
  datatype Filter = Filter(
    operator: Operator, hasProperty: bool, hasValue: bool, valueIsList: bool, operands: seq<nat>)

  /** The filters in memory by address; every operand is among them. */
  type Heap = map<nat, Filter>

  predicate Closed(h: Heap) {
    forall f :: f in h ==> forall i :: 0 <= i < |h[f].operands| ==> h[f].operands[i] in h
  }

  /** What a node needs by itself. */
  predicate WellFormed(f: Filter) {
    match f.operator
    case Not => !f.hasProperty && !f.hasValue && |f.operands| == 1
    case And => !f.hasProperty && !f.hasValue && |f.operands| >= 2
    case Or => !f.hasProperty && !f.hasValue && |f.operands| >= 2
    case In => f.hasProperty && |f.operands| == 0 && f.hasValue && f.valueIsList
    case Comparison => f.hasProperty && |f.operands| == 0
    case Contains => f.hasProperty && |f.operands| == 0
    case Unknown => false
  }

  /** A walk from operand to operand. */
  ghost predicate IsWalk(h: Heap, p: seq<nat>) {
    && p != []
    && (forall i :: 0 <= i < |p| ==> p[i] in h)
    && (forall i :: 0 < i < |p| ==> p[i] in h[p[i - 1]].operands)
  }

  ghost predicate Reachable(h: Heap, f: nat, g: nat) {
    exists p :: IsWalk(h, p) && p[0] == f && p[|p| - 1] == g
  }

  ghost predicate OnCycle(h: Heap, g: nat) {
    exists p :: IsWalk(h, p) && |p| > 1 && p[0] == g && p[|p| - 1] == g
  }

  /** What validation promises: all reachable nodes are well formed, none lies on a cycle. */
  ghost predicate IsValid(h: Heap, f: nat) {
    forall g :: Reachable(h, f, g) ==> WellFormed(h[g]) && !OnCycle(h, g)
  }

  // ---------------------------------------------------------------- the search

  /** A walk the search accepts while the filters in `visiting` are open. */
  ghost predicate Accepts(h: Heap, p: seq<nat>, visiting: set<nat>)
    requires IsWalk(h, p)
  {
    && (forall i :: 0 <= i < |p| ==> WellFormed(h[p[i]]) && p[i] !in visiting)
    && (forall i, j :: 0 <= i < j < |p| ==> p[i] != p[j])
  }

  ghost predicate AcceptsAll(h: Heap, f: nat, visiting: set<nat>) {
    forall p :: IsWalk(h, p) && p[0] == f ==> Accepts(h, p, visiting)
  }

  lemma TailAccepted(h: Heap, f: nat, c: nat, visiting: set<nat>)
    requires f in h && c in h && c in h[f].operands && AcceptsAll(h, f, visiting)
    ensures AcceptsAll(h, c, visiting + {f})
  {
    forall p | IsWalk(h, p) && p[0] == c ensures Accepts(h, p, visiting + {f}) {
      var q := [f] + p;
      assert forall i :: 0 < i < |q| ==> q[i] == p[i - 1];
      assert IsWalk(h, q) && q[0] == f;
      assert Accepts(h, q, visiting);
      forall i | 0 <= i < |p| ensures WellFormed(h[p[i]]) && p[i] !in visiting + {f} {
        assert q[i + 1] == p[i] && q[0] != q[i + 1];
      }
      forall i, j | 0 <= i < j < |p| ensures p[i] != p[j] { assert q[i + 1] != q[j + 1]; }
    }
  }

  lemma HeadAccepted(h: Heap, f: nat, visiting: set<nat>)
    requires f in h && f !in visiting && WellFormed(h[f])
    requires forall c :: c in h[f].operands ==> AcceptsAll(h, c, visiting + {f})
    ensures AcceptsAll(h, f, visiting)
  {
    forall p | IsWalk(h, p) && p[0] == f ensures Accepts(h, p, visiting) {
      if |p| > 1 {
        var q := p[1..];
        assert forall i :: 0 <= i < |q| ==> q[i] == p[i + 1];
        assert q[0] in h[f].operands;
        assert IsWalk(h, q);
        assert Accepts(h, q, visiting + {f});
        forall i | 0 <= i < |p| ensures WellFormed(h[p[i]]) && p[i] !in visiting {
          if i > 0 { assert p[i] == q[i - 1]; }
        }
        forall i, j | 0 <= i < j < |p| ensures p[i] != p[j] {
          if i == 0 { assert p[j] == q[j - 1]; } else { assert q[i - 1] != q[j - 1]; }
        }
      }
    }
  }

  /** A filter is accepted exactly when it is not open, is well formed by itself, and all its
      operands are accepted with it open. */
  lemma AcceptStep(h: Heap, f: nat, visiting: set<nat>)
    requires Closed(h) && f in h
    ensures AcceptsAll(h, f, visiting) <==>
      f !in visiting && WellFormed(h[f]) && forall c :: c in h[f].operands ==> AcceptsAll(h, c, visiting + {f})
  {
    if AcceptsAll(h, f, visiting) {
      assert IsWalk(h, [f]) && Accepts(h, [f], visiting);
      assert [f][0] == f;
      forall c | c in h[f].operands ensures AcceptsAll(h, c, visiting + {f}) { TailAccepted(h, f, c, visiting); }
    } else if f !in visiting && WellFormed(h[f]) && forall c :: c in h[f].operands ==> AcceptsAll(h, c, visiting + {f}) {
      HeadAccepted(h, f, visiting);
    }
  }

  /** The open filters, added to and removed from as the recursion goes down and up. */
  class Visiting {
    var open: set<nat>

    constructor ()
      ensures open == {}
    {
      open := {};
    }
  }

  /** The recursive walk. Each call closes what it opened, also when it reports an error. */
  method ValidateNode(h: Heap, f: nat, visiting: Visiting) returns (ok: bool)
    requires Closed(h) && f in h && visiting.open <= h.Keys
    modifies visiting
    ensures visiting.open == old(visiting.open)
    ensures ok <==> AcceptsAll(h, f, old(visiting.open))
    decreases h.Keys - visiting.open
  {
    AcceptStep(h, f, visiting.open);
    if f in visiting.open { return false; }
    ghost var before := visiting.open;
    visiting.open := visiting.open + {f};
    ok := true;
    var op := h[f].operator;
    if op == And || op == Or || op == Not {
      if h[f].hasProperty || h[f].hasValue || (op == Not && |h[f].operands| != 1) || (op != Not && |h[f].operands| < 2) {
        ok := false;
      }
      var i := 0;
      while ok && i < |h[f].operands|
        invariant 0 <= i <= |h[f].operands| && visiting.open == before + {f}
        invariant ok ==> WellFormed(h[f]) && forall k :: 0 <= k < i ==> AcceptsAll(h, h[f].operands[k], before + {f})
        invariant !ok ==> !AcceptsAll(h, f, before)
      {
        ok := ValidateNode(h, h[f].operands[i], visiting);
        assert h[f].operands[i] in h[f].operands;
        i := i + 1;
      }
    } else if op == Unknown || !h[f].hasProperty || |h[f].operands| != 0 {
      ok := false;
    } else if op == In {
      ok := h[f].hasValue && h[f].valueIsList;
    }
    visiting.open := visiting.open - {f};
    assert visiting.open == before;
  }

  lemma WalksJoin(h: Heap, p: seq<nat>, q: seq<nat>)
    requires IsWalk(h, p) && IsWalk(h, q) && p[|p| - 1] == q[0]
    ensures var r := p + q[1..];
      IsWalk(h, r) && r[0] == p[0] && r[|p| - 1] == p[|p| - 1] && r[|r| - 1] == q[|q| - 1]
  {
    var r := p + q[1..];
    forall i | 0 < i < |r| ensures r[i] in h[r[i - 1]].operands {
      if i >= |p| { assert r[i] == q[i - |p| + 1] && r[i - 1] == q[i - |p|]; }
    }
  }

  lemma PartOfWalk(h: Heap, p: seq<nat>, i: nat, j: nat)
    requires IsWalk(h, p) && i < j <= |p|
    ensures IsWalk(h, p[i..j])
  {
  }

  lemma AcceptedIsValid(h: Heap, f: nat, g: nat)
    requires AcceptsAll(h, f, {}) && Reachable(h, f, g)
    ensures g in h && WellFormed(h[g]) && !OnCycle(h, g)
  {
    var p :| IsWalk(h, p) && p[0] == f && p[|p| - 1] == g;
    assert Accepts(h, p, {});
    if OnCycle(h, g) {
      var q :| IsWalk(h, q) && |q| > 1 && q[0] == g && q[|q| - 1] == g;
      WalksJoin(h, p, q);
      RepeatNotAccepted(h, p + q[1..], |p| - 1, |p| + |q| - 2);
    }
  }

  lemma RepeatNotAccepted(h: Heap, p: seq<nat>, i: nat, j: nat)
    requires IsWalk(h, p) && i < j < |p| && p[i] == p[j]
    ensures !Accepts(h, p, {})
  {
  }

  lemma NodeReachable(h: Heap, p: seq<nat>, i: nat)
    requires IsWalk(h, p) && i < |p|
    ensures Reachable(h, p[0], p[i])
  {
    PartOfWalk(h, p, 0, i + 1);
    var q := p[0..i + 1];
    assert q[0] == p[0] && q[|q| - 1] == p[i];
  }

  lemma RepeatIsCycle(h: Heap, p: seq<nat>, i: nat, j: nat)
    requires IsWalk(h, p) && i < j < |p| && p[i] == p[j]
    ensures OnCycle(h, p[i])
  {
    PartOfWalk(h, p, i, j + 1);
    var q := p[i..j + 1];
    assert q[0] == p[i] && q[|q| - 1] == p[i];
  }

  lemma ValidIsAccepted(h: Heap, f: nat, p: seq<nat>)
    requires IsValid(h, f) && IsWalk(h, p) && p[0] == f
    ensures Accepts(h, p, {})
  {
    forall i: nat | i < |p| ensures WellFormed(h[p[i]]) && !OnCycle(h, p[i]) { NodeReachable(h, p, i); }
    forall i: nat, j: nat | i < j < |p| ensures p[i] != p[j] {
      if p[i] == p[j] { RepeatIsCycle(h, p, i, j); }
    }
  }

  /** Accepting all walks is what validation promises. */
  lemma AcceptsIsValid(h: Heap, f: nat)
    requires f in h
    ensures AcceptsAll(h, f, {}) <==> IsValid(h, f)
  {
    if AcceptsAll(h, f, {}) {
      forall g | Reachable(h, f, g) ensures WellFormed(h[g]) && !OnCycle(h, g) { AcceptedIsValid(h, f, g); }
    }
    if IsValid(h, f) {
      forall p | IsWalk(h, p) && p[0] == f ensures Accepts(h, p, {}) { ValidIsAccepted(h, f, p); }
    }
  }

  /** Validation is sound and complete on every graph of filters, shared and cyclic ones too. */
  method Validate(h: Heap, root: Option<nat>) returns (ok: bool)
    requires Closed(h) && (root.Some? ==> root.value in h)
    ensures ok <==> root.None? || IsValid(h, root.value)
  {
    if root.None? { return true; }
    var visiting := new Visiting();
    ok := ValidateNode(h, root.value, visiting);
    AcceptsIsValid(h, root.value);
  }
}
