/** Following pointer types to their base, with cycle detection by a slower second cursor. */
module TypeWalk {
  import opened Messages

  /** Types by identity; the map takes each pointer type to its element type. */
  type Pointers = map<nat, nat>

  /** The type after `n` dereferences; a type that is no pointer stays. */
  function Follow(g: Pointers, t: nat, n: nat): nat {
    if n == 0 then t else
      var u := Follow(g, t, n - 1);
      if u in g then g[u] else u
  }

  /** The chain of pointers ends. */
  ghost predicate HasBase(g: Pointers, t: nat) {
    exists n: nat :: Follow(g, t, n) !in g
  }

  lemma {:induction false} BaseStays(g: Pointers, t: nat, n: nat, m: nat)
    requires n <= m && Follow(g, t, n) !in g
    ensures Follow(g, t, m) == Follow(g, t, n)
    decreases m
  {
    if n < m { BaseStays(g, t, n, m - 1); }
  }

  /** There is only one base. */
  lemma BaseUnique(g: Pointers, t: nat, n: nat, m: nat)
    requires Follow(g, t, n) !in g && Follow(g, t, m) !in g
    ensures Follow(g, t, n) == Follow(g, t, m)
  {
    if n <= m { BaseStays(g, t, n, m); } else { BaseStays(g, t, m, n); }
  }

  lemma {:induction false} Periodic(g: Pointers, t: nat, i: nat, period: nat, n: nat)
    requires Follow(g, t, i) == Follow(g, t, i + period) && i <= n
    ensures Follow(g, t, n) == Follow(g, t, n + period)
    decreases n
  {
    if i < n { Periodic(g, t, i, period, n - 1); }
  }

  lemma {:induction false} PeriodicMany(g: Pointers, t: nat, i: nat, period: nat, n: nat, times: nat)
    requires Follow(g, t, i) == Follow(g, t, i + period) && i <= n
    ensures Follow(g, t, n) == Follow(g, t, n + times * period)
    decreases times
  {
    if times > 0 {
      PeriodicMany(g, t, i, period, n, times - 1);
      Periodic(g, t, i, period, n + (times - 1) * period);
      assert n + (times - 1) * period + period == n + times * period;
    }
  }

  /** A chain that comes back to an earlier type never ends. */
  lemma RepeatMeansEndless(g: Pointers, t: nat, i: nat, j: nat)
    requires i < j && Follow(g, t, i) == Follow(g, t, j)
    requires forall k: nat :: k <= j ==> Follow(g, t, k) in g
    ensures !HasBase(g, t)
  {
    forall n: nat ensures Follow(g, t, n) in g {
      EndlessAt(g, t, i, j, n);
    }
  }

  lemma {:induction false} EndlessAt(g: Pointers, t: nat, i: nat, j: nat, n: nat)
    requires i < j && Follow(g, t, i) == Follow(g, t, j)
    requires forall k: nat :: k <= j ==> Follow(g, t, k) in g
    ensures Follow(g, t, n) in g
    decreases n
  {
    if n > j {
      EndlessAt(g, t, i, j, n - (j - i));
      Periodic(g, t, i, j - i, n - (j - i));
    }
  }

  // ---------------------------------------------------------------- termination

  ghost function Visited(g: Pointers, t: nat, n: nat): set<nat> {
    if n == 0 then {} else Visited(g, t, n - 1) + {Follow(g, t, n - 1)}
  }

  lemma {:induction false} VisitedMember(g: Pointers, t: nat, n: nat, x: nat) returns (k: nat)
    requires x in Visited(g, t, n)
    ensures k < n && Follow(g, t, k) == x
  {
    if x in Visited(g, t, n - 1) {
      k := VisitedMember(g, t, n - 1, x);
    } else {
      k := n - 1;
    }
  }

  lemma {:induction false} VisitedSize(g: Pointers, t: nat, n: nat)
    requires forall i: nat, j: nat :: i < j < n ==> Follow(g, t, i) != Follow(g, t, j)
    ensures |Visited(g, t, n)| == n
  {
    if n > 0 {
      VisitedSize(g, t, n - 1);
      if Follow(g, t, n - 1) in Visited(g, t, n - 1) { var k := VisitedMember(g, t, n - 1, Follow(g, t, n - 1)); }
    }
  }

  /** More pointers on the chain than there are pointer types means that one comes twice. */
  lemma SomeRepeat(g: Pointers, t: nat) returns (i: nat, j: nat)
    requires forall k: nat :: k <= |g| ==> Follow(g, t, k) in g
    ensures i < j <= |g| && Follow(g, t, i) == Follow(g, t, j)
  {
    if forall i: nat, j: nat :: i < j < |g| + 1 ==> Follow(g, t, i) != Follow(g, t, j) {
      VisitedSize(g, t, |g| + 1);
      forall x | x in Visited(g, t, |g| + 1) ensures x in g { var k := VisitedMember(g, t, |g| + 1, x); }
      Larger(Visited(g, t, |g| + 1), g.Keys);
    }
    i, j :| 0 <= i < j < |g| + 1 && Follow(g, t, i) == Follow(g, t, j);
  }

  lemma {:induction false} Larger(a: set<nat>, b: set<nat>)
    requires a <= b
    ensures |a| <= |b|
  {
    if a != {} {
      var x :| x in a;
      Larger(a - {x}, b - {x});
    }
  }

  /** A round count at which both cursors are on the cycle a whole number of periods apart. */
  lemma MeetingPoint(i: nat, j: nat) returns (q: nat, times: nat)
    requires i < j
    ensures i <= q <= j && q >= 1 && q == times * (j - i)
  {
    var period := j - i;
    if i == 0 {
      q, times := period, 1;
      return;
    }
    times := (i + period - 1) / period;
    q := times * period;
    Rounding(i, period, times);
  }

  lemma Rounding(i: nat, period: nat, times: nat)
    requires i >= 1 && period >= 1 && times == (i + period - 1) / period
    ensures i <= times * period <= i + period - 1
  {
    var r := (i + period - 1) % period;
    assert times * period + r == i + period - 1;
  }

  /** The two cursors meet within as many rounds as there are pointer types. */
  lemma MustMeet(g: Pointers, t: nat) returns (q: nat)
    requires forall k: nat :: k <= |g| ==> Follow(g, t, k) in g
    ensures 1 <= q <= |g| && Follow(g, t, 2 * q) == Follow(g, t, q)
  {
    var i, j := SomeRepeat(g, t);
    var times;
    q, times := MeetingPoint(i, j);
    PeriodicMany(g, t, i, j - i, q, times);
    assert q + times * (j - i) == 2 * q;
  }

  /** The walk: the second cursor follows every other round. It returns the base type when the
      chain has one and reports failure exactly when the chain is cyclic. */
  method DereferencePointerType(g: Pointers, start: Option<nat>) returns (base: Option<nat>, ok: bool)
    ensures start.None? ==> base.None? && ok
    ensures start.Some? ==> (ok <==> HasBase(g, start.value))
    ensures start.Some? && ok ==>
      base.Some? && base.value !in g && exists n: nat :: base.value == Follow(g, start.value, n)
    ensures start.Some? && !ok ==> base.None?
  {
    if start.None? { return None, true; }
    ghost var t := start.value;
    var typ, slowpoke, indir := start.value, start.value, 0;
    while typ in g
      invariant indir >= 0 && typ == Follow(g, t, indir) && slowpoke == Follow(g, t, (indir + 1) / 2)
      invariant forall k: nat :: k < indir ==> Follow(g, t, k) in g
      invariant forall q: nat :: 1 <= q && 2 * q <= indir ==> Follow(g, t, 2 * q) != Follow(g, t, q)
      invariant indir <= 2 * |g| + 1
      decreases 2 * |g| + 1 - indir
    {
      if indir >= 2 * |g| {
        ghost var q := MustMeet(g, t);
        assert false;
      }
      typ := g[typ];
      if typ == slowpoke {
        RepeatMeansEndless(g, t, (indir + 1) / 2, indir + 1);
        return None, false;
      }
      if indir % 2 == 0 {
        slowpoke := g[slowpoke];
      }
      indir := indir + 1;
    }
    return Some(typ), true;
  }
}
