/** Filters mean expressions: validation accepts exactly those that do. */
module Meaning {
  import opened Filters

  /** What a filter says, without sharing and without cycles. */
  datatype Expression =
    | Every(parts: seq<Expression>)
    | Any(parts: seq<Expression>)
    | Negation(part: Expression)
    | Test(operator: Operator)

  /** The filter unfolds to the expression. Only a test has a property, only a list is searched. */
  ghost predicate Means(h: Heap, f: nat, e: Expression)
    decreases e
  {
    f in h &&
    var n := h[f];
    match e
    case Every(parts) => n.operator == And && !n.hasProperty && !n.hasValue && |parts| >= 2 && MeanAll(h, n.operands, parts)
    case Any(parts) => n.operator == Or && !n.hasProperty && !n.hasValue && |parts| >= 2 && MeanAll(h, n.operands, parts)
    case Negation(part) => n.operator == Not && !n.hasProperty && !n.hasValue && |n.operands| == 1 && Means(h, n.operands[0], part)
    case Test(op) =>
      && n.operator == op && op in {Comparison, Contains, In} && n.hasProperty && n.operands == []
      && (op == In ==> n.hasValue && n.valueIsList)
  }

  ghost predicate MeanAll(h: Heap, fs: seq<nat>, parts: seq<Expression>)
    decreases parts
  {
    if parts == [] then fs == [] else fs != [] && Means(h, fs[0], parts[0]) && MeanAll(h, fs[1..], parts[1..])
  }

  function Parts(e: Expression): seq<Expression> {
    match e
    case Every(parts) => parts
    case Any(parts) => parts
    case Negation(part) => [part]
    case Test(_) => []
  }

  function Size(e: Expression): nat {
    match e
    case Every(parts) => 1 + SizeAll(parts)
    case Any(parts) => 1 + SizeAll(parts)
    case Negation(part) => 1 + Size(part)
    case Test(_) => 1
  }

  function SizeAll(parts: seq<Expression>): nat {
    if parts == [] then 0 else Size(parts[0]) + SizeAll(parts[1..])
  }

  lemma {:induction false} PartIsSmaller(parts: seq<Expression>, i: nat)
    requires i < |parts|
    ensures Size(parts[i]) <= SizeAll(parts)
  {
    if i > 0 { PartIsSmaller(parts[1..], i - 1); }
  }

  lemma {:induction false} MeanAllAt(h: Heap, fs: seq<nat>, parts: seq<Expression>)
    ensures MeanAll(h, fs, parts) <==> |fs| == |parts| && forall i :: 0 <= i < |parts| ==> Means(h, fs[i], parts[i])
  {
    if parts != [] && fs != [] {
      MeanAllAt(h, fs[1..], parts[1..]);
      if MeanAll(h, fs, parts) {
        forall i | 0 <= i < |parts| ensures Means(h, fs[i], parts[i]) {
          if i > 0 { assert Means(h, fs[1..][i - 1], parts[1..][i - 1]); }
        }
      }
      if |fs| == |parts| && forall i :: 0 <= i < |parts| ==> Means(h, fs[i], parts[i]) {
        forall i | 0 <= i < |parts| - 1 ensures Means(h, fs[1..][i], parts[1..][i]) { assert Means(h, fs[i + 1], parts[i + 1]); }
      }
    }
  }

  /** A filter has at most one meaning. */
  lemma {:induction false} OneMeaning(h: Heap, f: nat, d: Expression, e: Expression)
    requires Means(h, f, d) && Means(h, f, e)
    ensures d == e
    decreases d, 1
  {
    match d
    case Every(parts) => OneMeaningAll(h, h[f].operands, parts, e.parts, d);
    case Any(parts) => OneMeaningAll(h, h[f].operands, parts, e.parts, d);
    case Negation(part) => OneMeaning(h, h[f].operands[0], part, e.part);
    case Test(_) =>
  }

  lemma {:induction false} OneMeaningAll(h: Heap, fs: seq<nat>, xs: seq<Expression>, ys: seq<Expression>, d: Expression)
    requires MeanAll(h, fs, xs) && MeanAll(h, fs, ys) && forall x :: x in xs ==> x < d
    ensures xs == ys
    decreases d, 0, |xs|
  {
    if xs != [] {
      assert xs[0] in xs;
      OneMeaning(h, fs[0], xs[0], ys[0]);
      assert forall x :: x in xs[1..] ==> x in xs;
      OneMeaningAll(h, fs[1..], xs[1..], ys[1..], d);
      assert xs == [xs[0]] + xs[1..] && ys == [ys[0]] + ys[1..];
    }
  }

  lemma MeaningIsWellFormed(h: Heap, f: nat, e: Expression)
    requires Means(h, f, e)
    ensures f in h && WellFormed(h[f]) && MeanAll(h, h[f].operands, Parts(e))
  {
    MeanAllAt(h, h[f].operands, Parts(e));
  }

  /** Every open filter means something larger. */
  ghost predicate AllLarger(h: Heap, open: set<nat>, size: nat) {
    forall v :: v in open ==> exists d :: Means(h, v, d) && size < Size(d)
  }

  /** A filter that means an expression is accepted below filters that mean larger ones. */
  lemma {:induction false} MeaningIsAccepted(h: Heap, f: nat, e: Expression, open: set<nat>)
    requires Closed(h) && Means(h, f, e) && AllLarger(h, open, Size(e))
    ensures AcceptsAll(h, f, open)
    decreases Size(e)
  {
    MeaningIsWellFormed(h, f, e);
    if f in open {
      var d :| Means(h, f, d) && Size(e) < Size(d);
      OneMeaning(h, f, d, e);
      assert false;
    }
    var fs := h[f].operands;
    MeanAllAt(h, fs, Parts(e));
    forall c | c in fs ensures AcceptsAll(h, c, open + {f}) {
      var i: nat :| i < |fs| && fs[i] == c;
      PartSize(e, i);
      LargerBelow(h, f, e, open, Size(Parts(e)[i]));
      MeaningIsAccepted(h, c, Parts(e)[i], open + {f});
    }
    AcceptStep(h, f, open);
  }

  lemma PartSize(e: Expression, i: nat)
    requires i < |Parts(e)|
    ensures Size(Parts(e)[i]) < Size(e)
  {
    PartIsSmaller(Parts(e), i);
  }

  lemma LargerBelow(h: Heap, f: nat, e: Expression, open: set<nat>, size: nat)
    requires Means(h, f, e) && AllLarger(h, open, Size(e)) && size < Size(e)
    ensures AllLarger(h, open + {f}, size)
  {
    hide Means;
    forall v | v in open + {f} ensures exists d :: Means(h, v, d) && size < Size(d) {
      if v in open {
        var d :| Means(h, v, d) && Size(e) < Size(d);
      } else {
        assert Means(h, v, e);
      }
    }
  }

  /** An accepted filter means something. */
  lemma {:induction false} AcceptedMeans(h: Heap, f: nat, open: set<nat>) returns (e: Expression)
    requires Closed(h) && f in h && open <= h.Keys && AcceptsAll(h, f, open)
    ensures Means(h, f, e)
    decreases h.Keys - open, 1, 0
  {
    AcceptStep(h, f, open);
    assert h.Keys - (open + {f}) < h.Keys - open;
    var parts := AcceptedMeanAll(h, h[f].operands, open + {f});
    MeanAllAt(h, h[f].operands, parts);
    var op := h[f].operator;
    match op
    case And => e := Every(parts);
    case Or => e := Any(parts);
    case Not =>
      assert parts == [parts[0]];
      e := Negation(parts[0]);
    case _ => e := Test(op);
  }

  lemma {:induction false} AcceptedMeanAll(h: Heap, fs: seq<nat>, open: set<nat>) returns (parts: seq<Expression>)
    requires Closed(h) && open <= h.Keys && forall c :: c in fs ==> c in h && AcceptsAll(h, c, open)
    ensures MeanAll(h, fs, parts)
    decreases h.Keys - open, 2, |fs|
  {
    if fs == [] {
      parts := [];
    } else {
      assert fs[0] in fs;
      var e := AcceptedMeans(h, fs[0], open);
      var rest := AcceptedMeanAll(h, fs[1..], open);
      parts := [e] + rest;
      assert parts[1..] == rest;
    }
  }

  ghost predicate HasMeaning(h: Heap, f: nat) {
    exists e :: Means(h, f, e)
  }

  /** Validation promises a meaning: a filter is valid if and only if it unfolds to a finite
      expression, and then to one only. */
  lemma ValidIffMeans(h: Heap, f: nat)
    requires Closed(h) && f in h
    ensures IsValid(h, f) <==> HasMeaning(h, f)
    ensures forall d, e :: Means(h, f, d) && Means(h, f, e) ==> d == e
  {
    AcceptsIsValid(h, f);
    if IsValid(h, f) {
      var e := AcceptedMeans(h, f, {});
      assert HasMeaning(h, f);
    }
    if HasMeaning(h, f) {
      var e :| Means(h, f, e);
      MeaningIsAccepted(h, f, e, {});
    }
    forall d, e | Means(h, f, d) && Means(h, f, e) ensures d == e { OneMeaning(h, f, d, e); }
  }
}
