/** Workflow ownership: taking, handing over and releasing by loads and compare-and-swaps. */
module Ownership {
  import opened Messages

  /** A token as callers present it: nil, a pointer-like value with an identity, or a value
      without one, which never equals anything. */
  datatype Token = Nil | Ref(identity: nat) | Plain

  predicate SameToken(a: Token, b: Token) {
    if a.Nil? || b.Nil? then a.Nil? && b.Nil? else a.Ref? && b.Ref? && a == b
  }

  /** An owner record. Records are immutable and compared by address. */
  datatype Owner = Owner(token: Token, subworkflow: bool)

  datatype Request =
    | Take(token: Token, newToken: Token, subworkflow: bool)
    | Release(token: Token, target: Token)

  datatype Failure =
    | NilNewToken | BadNewToken | TokenForUnowned | NeedsReset | OwnedByOther(subworkflow: bool, ownerSubworkflow: bool)
    | BadTarget | NotOwned | NotOwner

  /** Where a call is between two atomic operations. `mine` is the record it wants to install. */
  datatype Place =
    | Started
    | Loading(mine: nat)
    | CheckingReset(mine: nat)
    | Swapping(expected: Option<nat>, next: Option<nat>, mine: nat)
    | Finishing
    | Succeeded
    | Rejected(why: Failure)

  datatype Call = Call(request: Request, place: Place)

  /** One successful compare-and-swap: the call's request and the owner tokens around it. */
  datatype Change = Change(id: nat, request: Request, before: Token, after: Token)

  /** A take that is through, or a reset that succeeded. */
  datatype End = TakeEnded | ResetDone

  /** `records` is the heap of owner records. No step reads the logs: `log` lists the changes of the
      owner, `ends` the ends of takes and the successful resets. */
  datatype State = State(
    owner: Option<nat>, records: seq<Owner>, needsReset: bool, calls: seq<Call>, log: seq<Change>, ends: seq<End>)

  datatype Step = Begin(request: Request) | Advance(id: nat, resetSucceeds: bool)

  const Initial := State(None, [], false, [], [], [])

  function TokenAt(s: State, p: Option<nat>): Token {
    if p.None? || p.value >= |s.records| then Nil else s.records[p.value].token
  }

  function OwnerToken(s: State): Token {
    TokenAt(s, s.owner)
  }

  /** The ownership check reads the current owner. */
  predicate CheckOwnership(s: State, token: Token)
    requires s.owner.Some? ==> s.owner.value < |s.records|
  {
    if s.owner.None? then token.Nil? else SameToken(s.records[s.owner.value].token, token)
  }

  function Goto(s: State, id: nat, place: Place): State
    requires id < |s.calls|
  {
    s.(calls := s.calls[id := s.calls[id].(place := place)])
  }

  /** Checks the arguments; a take allocates the record it will install. */
  function StartCall(s: State, id: nat): State
    requires id < |s.calls|
  {
    match s.calls[id].request
    case Take(_, newToken, sub) =>
      if newToken.Nil? then Goto(s, id, Rejected(NilNewToken))
      else if newToken.Plain? then Goto(s, id, Rejected(BadNewToken))
      else Goto(s.(records := s.records + [Owner(newToken, sub)]), id, Loading(|s.records|))
    case Release(_, target) =>
      if target.Plain? then Goto(s, id, Rejected(BadTarget)) else Goto(s, id, Loading(0))
  }

  /** The load at the top of the retry loop and the decision on what it returned. */
  function LoadOwner(s: State, id: nat): State
    requires id < |s.calls| && s.calls[id].place.Loading? && (s.owner.Some? ==> s.owner.value < |s.records|)
  {
    var mine := s.calls[id].place.mine;
    match s.calls[id].request
    case Take(token, newToken, sub) =>
      if s.owner.None? then
        Goto(s, id, if token.Nil? then CheckingReset(mine) else Rejected(TokenForUnowned))
      else
        var o := s.records[s.owner.value];
        if SameToken(o.token, token) || SameToken(o.token, newToken) then
          Goto(s, id, Swapping(s.owner, Some(mine), mine))
        else Goto(s, id, Rejected(OwnedByOther(sub, o.subworkflow)))
    case Release(token, target) =>
      if s.owner.None? then Goto(s, id, Rejected(NotOwned))
      else
        var o := s.records[s.owner.value];
        if !SameToken(o.token, token) then Goto(s, id, Rejected(NotOwner))
        else if target.Nil? then Goto(s, id, Swapping(s.owner, None, mine))
        else Goto(s.(records := s.records + [Owner(target, o.subworkflow)]), id, Swapping(s.owner, Some(|s.records|), mine))
  }

  /** The compare-and-swap: by address, and back to the load when it fails. */
  function SwapOwner(s: State, id: nat): State
    requires id < |s.calls| && s.calls[id].place.Swapping?
  {
    var p := s.calls[id].place;
    if s.owner == p.expected then
      Goto(s.(owner := p.next, log := s.log + [Change(id, s.calls[id].request, OwnerToken(s), TokenAt(s, p.next))]), id, Finishing)
    else Goto(s, id, Loading(p.mine))
  }

  /** After success a take stores whether a reset will be needed; a release tries the reset. */
  function FinishCall(s: State, id: nat, resettable: bool, resetSucceeds: bool): State
    requires id < |s.calls|
  {
    var needs := if s.calls[id].request.Take? then resettable
                 else if resettable && resetSucceeds then false else s.needsReset;
    var ended := if s.calls[id].request.Take? then [TakeEnded] else if resettable && resetSucceeds then [ResetDone] else [];
    Goto(s.(needsReset := needs, ends := s.ends + ended), id, Succeeded)
  }

  ghost predicate Enabled(s: State, step: Step) {
    step.Advance? ==> step.id < |s.calls| && !s.calls[step.id].place.Succeeded? && !s.calls[step.id].place.Rejected?
  }

  function Apply(s: State, step: Step, resettable: bool): State
    requires step.Advance? ==> step.id < |s.calls|
    requires s.owner.Some? ==> s.owner.value < |s.records|
  {
    match step
    case Begin(request) => s.(calls := s.calls + [Call(request, Started)])
    case Advance(id, resetSucceeds) =>
      match s.calls[id].place
      case Started => StartCall(s, id)
      case Loading(_) => LoadOwner(s, id)
      case CheckingReset(mine) =>
        Goto(s, id, if s.needsReset then Rejected(NeedsReset) else Swapping(None, Some(mine), mine))
      case Swapping(_, _, _) => SwapOwner(s, id)
      case Finishing => FinishCall(s, id, resettable, resetSucceeds)
      case _ => s
  }

  // ---------------------------------------------------------------- invariant

  /** What a call in progress knows about the records it holds. */
  ghost predicate CallInv(s: State, c: Call) {
    match c.place
    case Started => true
    case Loading(mine) => if c.request.Take? then IsMine(s, c, mine) else !c.request.target.Plain?
    case CheckingReset(mine) => c.request.Take? && c.request.token.Nil? && IsMine(s, c, mine)
    case Swapping(expected, next, mine) =>
      && (c.request.Take? ==> IsMine(s, c, mine) && next == Some(mine))
      && (c.request.Release? ==>
            && !c.request.target.Plain?
            && (next.Some? ==> next.value < |s.records| && c.request.target.Ref?)
            && TokenAt(s, next) == c.request.target)
      && (expected.Some? ==> expected.value < |s.records|)
      && MaySwap(c.request, TokenAt(s, expected))
    case _ => true
  }

  ghost predicate IsMine(s: State, c: Call, mine: nat)
    requires c.request.Take?
  {
    mine < |s.records| && s.records[mine].token == c.request.newToken
  }

  /** When a request may replace an owner with the given token. */
  ghost predicate MaySwap(r: Request, owner: Token) {
    match r
    case Take(token, newToken, _) => if owner.Nil? then token.Nil? else owner == token || owner == newToken
    case Release(token, _) => owner.Ref? && owner == token
  }

  /** A change is one its request may make, to the token it asks for. */
  ghost predicate LegalChange(c: Change) {
    && MaySwap(c.request, c.before)
    && match c.request
       case Take(_, newToken, _) => newToken.Ref? && c.after == newToken
       case Release(_, target) => c.after == target
  }

  ghost predicate Inv(s: State) {
    && (s.owner.Some? ==> s.owner.value < |s.records|)
    && (forall k :: 0 <= k < |s.records| ==> s.records[k].token.Ref?)
    && (forall k :: 0 <= k < |s.calls| ==> CallInv(s, s.calls[k]))
    && (forall k :: 0 <= k < |s.log| ==> LegalChange(s.log[k]))
    && (forall k :: 0 < k < |s.log| ==> s.log[k].before == s.log[k - 1].after)
    && (if s.log == [] then OwnerToken(s).Nil? else s.log[0].before.Nil? && OwnerToken(s) == s.log[|s.log| - 1].after)
  }

  lemma GrowthKeepsCalls(s: State, t: State, k: nat)
    requires k < |s.calls| && CallInv(s, s.calls[k]) && s.records <= t.records
    ensures CallInv(t, s.calls[k])
  {
  }

  /** A step that leaves the owner alone, whatever call it moves and records it allocates. */
  lemma QuietKeepsInv(s: State, t: State)
    requires Inv(s) && t.owner == s.owner && t.log == s.log && s.records <= t.records
    requires forall k :: |s.records| <= k < |t.records| ==> t.records[k].token.Ref?
    requires forall k :: 0 <= k < |t.calls| ==> CallInv(t, t.calls[k])
    ensures Inv(t)
  {
  }

  lemma SwapKeepsInv(s: State, id: nat)
    requires Inv(s) && id < |s.calls| && s.calls[id].place.Swapping? && s.owner == s.calls[id].place.expected
    ensures Inv(SwapOwner(s, id))
  {
    var t := SwapOwner(s, id);
    assert CallInv(s, s.calls[id]);
    forall k | 0 <= k < |t.calls| ensures CallInv(t, t.calls[k]) {
      if k != id { GrowthKeepsCalls(s, t, k); }
    }
    assert LegalChange(t.log[|s.log|]);
  }

  lemma MovedCall(s: State, step: Step, resettable: bool)
    requires Inv(s) && Enabled(s, step) && step.Advance?
    ensures Moved(s, Apply(s, step, resettable), step.id)
  {
    hide Moved;
    match s.calls[step.id].place
    case Started => StartedCall(s, step.id);
    case Loading(_) => LoadedCall(s, step.id);
    case Swapping(_, _, _) => SwappedCall(s, step.id);
    case _ => OtherCall(s, step, resettable);
  }

  /** A call has made its step: records may have been added, and its place is in order. */
  ghost predicate Moved(s: State, t: State, id: nat)
    requires id < |s.calls|
  {
    && s.records <= t.records
    && (forall k :: |s.records| <= k < |t.records| ==> t.records[k].token.Ref?)
    && |t.calls| == |s.calls| && t.calls == s.calls[id := t.calls[id]] && CallInv(t, t.calls[id])
  }

  lemma StartedCall(s: State, id: nat)
    requires Inv(s) && id < |s.calls| && s.calls[id].place.Started?
    ensures Moved(s, StartCall(s, id), id)
  {
  }

  lemma SwappedCall(s: State, id: nat)
    requires Inv(s) && id < |s.calls| && s.calls[id].place.Swapping?
    ensures Moved(s, SwapOwner(s, id), id)
  {
    assert CallInv(s, s.calls[id]);
  }

  lemma OtherCall(s: State, step: Step, resettable: bool)
    requires Inv(s) && Enabled(s, step) && step.Advance?
    requires var p := s.calls[step.id].place; !p.Started? && !p.Loading? && !p.Swapping?
    ensures Moved(s, Apply(s, step, resettable), step.id)
  {
    assert CallInv(s, s.calls[step.id]);
  }

  lemma LoadedCall(s: State, id: nat)
    requires Inv(s) && id < |s.calls| && s.calls[id].place.Loading?
    ensures Moved(s, LoadOwner(s, id), id)
  {
    assert CallInv(s, s.calls[id]);
    assert s.owner.Some? ==> s.records[s.owner.value].token.Ref?;
  }

  lemma StepKeepsCalls(s: State, step: Step, resettable: bool)
    requires Inv(s) && Enabled(s, step)
    ensures var t := Apply(s, step, resettable);
      && s.records <= t.records
      && (forall k :: |s.records| <= k < |t.records| ==> t.records[k].token.Ref?)
      && (forall k :: 0 <= k < |t.calls| ==> CallInv(t, t.calls[k]))
  {
    var t := Apply(s, step, resettable);
    if step.Advance? {
      MovedCall(s, step, resettable);
      hide Apply, CallInv;
      forall k | 0 <= k < |t.calls| ensures CallInv(t, t.calls[k]) {
        if k != step.id { GrowthKeepsCalls(s, t, k); }
      }
    } else {
      forall k | 0 <= k < |t.calls| ensures CallInv(t, t.calls[k]) {
        if k < |s.calls| { GrowthKeepsCalls(s, t, k); }
      }
    }
  }

  lemma StepKeepsInv(s: State, step: Step, resettable: bool)
    requires Inv(s) && Enabled(s, step)
    ensures Inv(Apply(s, step, resettable))
  {
    var t := Apply(s, step, resettable);
    if step.Advance? && s.calls[step.id].place.Swapping? && s.owner == s.calls[step.id].place.expected {
      SwapKeepsInv(s, step.id);
    } else {
      StepKeepsCalls(s, step, resettable);
      hide Inv, CallInv;
      QuietKeepsInv(s, t);
    }
  }

  ghost predicate Leads(s: State, steps: seq<Step>, resettable: bool, t: State)
    decreases steps
  {
    if steps == [] then s == t
    else
      && Enabled(s, steps[0]) && (s.owner.Some? ==> s.owner.value < |s.records|)
      && Leads(Apply(s, steps[0], resettable), steps[1..], resettable, t)
  }

  lemma {:induction false} LeadsKeepsInv(s: State, steps: seq<Step>, resettable: bool, t: State)
    requires Inv(s) && Leads(s, steps, resettable, t)
    ensures Inv(t)
    decreases steps
  {
    if steps != [] {
      StepKeepsInv(s, steps[0], resettable);
      LeadsKeepsInv(Apply(s, steps[0], resettable), steps[1..], resettable, t);
    }
  }

  // ---------------------------------------------------------------- main results

  /** Ownership is never stolen: in any reachable state a present owner has a proper token, and a
      step that replaces or clears it belongs to a call that presented exactly that token. An
      unowned workflow only gets an owner through a take that presented no token. */
  lemma NeverStolen(steps: seq<Step>, resettable: bool, s: State, step: Step)
    requires Leads(Initial, steps, resettable, s) && Enabled(s, step)
    ensures s.owner.Some? ==> s.owner.value < |s.records|
    ensures s.owner.Some? <==> OwnerToken(s).Ref?
    ensures OwnerToken(Apply(s, step, resettable)) != OwnerToken(s) ==>
      && step.Advance?
      && s.calls[step.id].request.token == OwnerToken(s)
      && (OwnerToken(s).Nil? ==> s.calls[step.id].request.Take?)
  {
    LeadsKeepsInv(Initial, steps, resettable, s);
    OwnerMoves(s, step, resettable);
    if step.Advance? { assert CallInv(s, s.calls[step.id]); }
    hide Apply;
  }

  /** Only a compare-and-swap that finds what it expects changes the owner. */
  lemma OwnerMoves(s: State, step: Step, resettable: bool)
    requires Inv(s) && Enabled(s, step)
    ensures OwnerToken(Apply(s, step, resettable)) != OwnerToken(s) ==>
      step.Advance? && s.calls[step.id].place.Swapping? && s.owner == s.calls[step.id].place.expected
  {
    hide CallInv, LegalChange;
  }

  /** The ownership check answers for exactly the current owner's token. */
  lemma CheckIsExact(steps: seq<Step>, resettable: bool, s: State, token: Token)
    requires Leads(Initial, steps, resettable, s)
    ensures s.owner.Some? ==> s.owner.value < |s.records|
    ensures CheckOwnership(s, token) <==> token == OwnerToken(s)
  {
    LeadsKeepsInv(Initial, steps, resettable, s);
  }

  /** Between two positions of the log where the owner differs there is a change from the first
      owner, made by a request that presented its token. */
  lemma {:induction false} SomeoneGaveWay(s: State, i: nat, j: nat) returns (k: nat)
    requires Inv(s) && i < j < |s.log| && s.log[i].after.Ref? && s.log[j].before != s.log[i].after
    ensures i < k < j
    ensures s.log[k].before == s.log[i].after && s.log[k].after != s.log[i].after
    ensures s.log[k].request.token == s.log[i].after
    decreases j
  {
    if s.log[j - 1].before != s.log[i].after && i < j - 1 {
      k := SomeoneGaveWay(s, i, j - 1);
    } else {
      k := j - 1;
      assert LegalChange(s.log[k]);
    }
  }

  /** Two takes of an unowned workflow with different new tokens cannot both succeed unless a
      release or a hand-over that presented the first one's token comes between them. */
  lemma TakesExclude(steps: seq<Step>, resettable: bool, s: State, i: nat, j: nat) returns (k: nat)
    requires Leads(Initial, steps, resettable, s)
    requires i < j < |s.log| && s.log[i].request.Take? && s.log[j].request.Take?
    requires s.log[i].request.newToken != s.log[j].request.newToken && s.log[j].request.token.Nil?
    ensures i < k < j
    ensures s.log[k].before == s.log[i].request.newToken && s.log[k].request.token == s.log[i].request.newToken
    ensures s.log[k].after != s.log[i].request.newToken
  {
    LeadsKeepsInv(Initial, steps, resettable, s);
    assert LegalChange(s.log[i]) && LegalChange(s.log[j]);
    k := SomeoneGaveWay(s, i, j);
  }

  /** Every call that reports success made a change of its own: nobody is told to own what it
      did not get. */
  ghost predicate SuccessLogged(s: State) {
    forall n :: 0 <= n < |s.calls| && IsThrough(s.calls[n]) ==> HasChanged(s, n)
  }

  ghost predicate HasChanged(s: State, n: nat)
    requires n < |s.calls|
  {
    exists k :: 0 <= k < |s.log| && s.log[k].id == n && s.log[k].request == s.calls[n].request
  }

  lemma {:induction false} LeadsLogsSuccess(s: State, steps: seq<Step>, resettable: bool, t: State)
    requires SuccessLogged(s) && Inv(s) && Leads(s, steps, resettable, t)
    ensures SuccessLogged(t)
    decreases steps
  {
    if steps != [] {
      var u := Apply(s, steps[0], resettable);
      StepLogsSuccess(s, steps[0], resettable);
      StepKeepsInv(s, steps[0], resettable);
      LeadsLogsSuccess(u, steps[1..], resettable, t);
    }
  }

  predicate IsThrough(c: Call) {
    c.place.Finishing? || c.place.Succeeded?
  }

  lemma ThroughByStep(s: State, step: Step, resettable: bool, n: nat)
    requires Enabled(s, step) && (s.owner.Some? ==> s.owner.value < |s.records|)
    ensures var t := Apply(s, step, resettable);
      && s.log <= t.log
      && (n < |t.calls| && IsThrough(t.calls[n]) ==>
            && n < |s.calls| && t.calls[n].request == s.calls[n].request
            && (IsThrough(s.calls[n]) ||
                (|t.log| > |s.log| && t.log[|s.log|].id == n && t.log[|s.log|].request == t.calls[n].request)))
  {
  }

  lemma StepLogsSuccess(s: State, step: Step, resettable: bool)
    requires SuccessLogged(s) && Inv(s) && Enabled(s, step)
    ensures SuccessLogged(Apply(s, step, resettable))
  {
    hide Inv;
    assert s.owner.Some? ==> s.owner.value < |s.records| by { InvBound(s); }
    var t := Apply(s, step, resettable);
    forall n | 0 <= n < |t.calls| && IsThrough(t.calls[n]) ensures HasChanged(t, n) {
      ThroughByStep(s, step, resettable, n);
      if IsThrough(s.calls[n]) {
        assert HasChanged(s, n);
        var k :| 0 <= k < |s.log| && s.log[k].id == n && s.log[k].request == s.calls[n].request;
        assert t.log[k] == s.log[k];
      } else {
        assert t.log[|s.log|].id == n;
      }
    }
  }

  lemma InvBound(s: State)
    requires Inv(s)
    ensures s.owner.Some? ==> s.owner.value < |s.records|
  {
  }

  /** A take that reports success did itself install its new token at some point of the run. */
  lemma SuccessIsReal(steps: seq<Step>, resettable: bool, s: State, n: nat) returns (k: nat)
    requires Leads(Initial, steps, resettable, s)
    requires n < |s.calls| && s.calls[n].place.Succeeded? && s.calls[n].request.Take?
    ensures k < |s.log| && s.log[k].id == n && s.log[k].request == s.calls[n].request
    ensures s.log[k].after == s.calls[n].request.newToken
  {
    LeadsKeepsInv(Initial, steps, resettable, s);
    LeadsLogsSuccess(Initial, steps, resettable, s);
    assert HasChanged(s, n);
    k :| 0 <= k < |s.log| && s.log[k].id == n && s.log[k].request == s.calls[n].request;
    assert LegalChange(s.log[k]);
  }

  // ---------------------------------------------------------------- takes and resets

  /** Some take has ended and no reset has succeeded since. */
  ghost predicate AwaitsReset(ends: seq<End>) {
    exists k :: 0 <= k < |ends| && ends[k].TakeEnded? && forall j :: k < j < |ends| ==> !ends[j].ResetDone?
  }

  lemma AwaitsStep(ends: seq<End>, more: seq<End>)
    requires |more| <= 1
    ensures AwaitsReset(ends + more) <==> if more == [] then AwaitsReset(ends) else more[0].TakeEnded? || (!more[0].ResetDone? && AwaitsReset(ends))
  {
    var all, n := ends + more, |ends|;
    if more == [] {
      assert all == ends;
    } else if more[0].TakeEnded? {
      assert all[n].TakeEnded?;
    } else {
      assert all[n].ResetDone?;
    }
  }

  lemma {:induction false} LeadsKeepsReset(s: State, steps: seq<Step>, resettable: bool, t: State)
    requires (s.needsReset <==> resettable && AwaitsReset(s.ends)) && Leads(s, steps, resettable, t)
    ensures t.needsReset <==> resettable && AwaitsReset(t.ends)
    decreases steps
  {
    if steps != [] {
      StepKeepsReset(s, steps[0], resettable);
      LeadsKeepsReset(Apply(s, steps[0], resettable), steps[1..], resettable, t);
    }
  }

  lemma StepKeepsReset(s: State, step: Step, resettable: bool)
    requires Enabled(s, step) && (s.owner.Some? ==> s.owner.value < |s.records|)
    requires s.needsReset <==> resettable && AwaitsReset(s.ends)
    ensures var t := Apply(s, step, resettable); t.needsReset <==> resettable && AwaitsReset(t.ends)
  {
    hide AwaitsReset;
    AwaitsStep(s.ends, [TakeEnded]);
    AwaitsStep(s.ends, [ResetDone]);
    assert s.ends + [] == s.ends;
  }

  /** When a reset is outstanding, in every reachable state: the workflow has resettable executors,
      and a take has ended since the last successful reset. */
  lemma NeedsResetIff(steps: seq<Step>, resettable: bool, s: State)
    requires Leads(Initial, steps, resettable, s)
    ensures s.needsReset <==> resettable && AwaitsReset(s.ends)
  {
    LeadsKeepsReset(Initial, steps, resettable, s);
  }

  /** The reset check turns a take away exactly while a reset is outstanding. */
  lemma ResetCheckIff(steps: seq<Step>, resettable: bool, s: State, id: nat, r: bool)
    requires Leads(Initial, steps, resettable, s) && Enabled(s, Advance(id, r)) && s.calls[id].place.CheckingReset?
    ensures s.owner.Some? ==> s.owner.value < |s.records|
    ensures var after := Apply(s, Advance(id, r), resettable).calls[id].place;
      && (after == Rejected(NeedsReset) <==> resettable && AwaitsReset(s.ends))
      && (PastCheck(Call(s.calls[id].request, after)) <==> !(resettable && AwaitsReset(s.ends)))
  {
    NeedsResetIff(steps, resettable, s);
    LeadsKeepsInv(Initial, steps, resettable, s);
  }

  ghost predicate NoneTurnedAway(s: State) {
    !s.needsReset && forall k :: 0 <= k < |s.calls| ==> s.calls[k].place != Rejected(NeedsReset)
  }

  lemma {:induction false} LeadsTurnsNoneAway(s: State, steps: seq<Step>, t: State)
    requires NoneTurnedAway(s) && Leads(s, steps, false, t)
    ensures NoneTurnedAway(t)
    decreases steps
  {
    if steps != [] { LeadsTurnsNoneAway(Apply(s, steps[0], false), steps[1..], t); }
  }

  /** Without resettable executors no take is ever turned away for a reset. */
  lemma NeverNeedsReset(steps: seq<Step>, s: State, id: nat)
    requires Leads(Initial, steps, false, s) && id < |s.calls|
    ensures s.calls[id].place != Rejected(NeedsReset)
  {
    LeadsTurnsNoneAway(Initial, steps, s);
  }

  /** The call has found the workflow unowned and passed the reset check. */
  predicate PastCheck(c: Call) {
    c.place.Swapping? && c.place.expected.None?
  }

  /** While a reset is outstanding and nobody owns the workflow, a step gives it an owner exactly
      when its call had already passed the reset check; no call passes the check then. */
  lemma ResetExcludesIff(steps: seq<Step>, resettable: bool, s: State, id: nat, r: bool)
    requires Leads(Initial, steps, resettable, s) && Enabled(s, Advance(id, r))
    requires s.owner.None? && resettable && AwaitsReset(s.ends)
    ensures Apply(s, Advance(id, r), resettable).owner.Some? <==> PastCheck(s.calls[id])
    ensures PastCheck(Apply(s, Advance(id, r), resettable).calls[id]) ==> PastCheck(s.calls[id])
  {
    LeadsKeepsInv(Initial, steps, resettable, s);
    NeedsResetIff(steps, resettable, s);
    assert CallInv(s, s.calls[id]);
  }

  /** A run on which a reset stays outstanding. */
  ghost predicate LeadsUnreset(s: State, steps: seq<Step>, resettable: bool, t: State)
    decreases steps
  {
    && s.needsReset
    && if steps == [] then s == t
       else
         && Enabled(s, steps[0]) && (s.owner.Some? ==> s.owner.value < |s.records|)
         && LeadsUnreset(Apply(s, steps[0], resettable), steps[1..], resettable, t)
  }

  /** No call from the `n`-th on has passed the reset check, nor got an owner in place of none. */
  ghost predicate NonePast(s: State, n: nat, logged: nat) {
    && (forall k :: n <= k < |s.calls| ==> !PastCheck(s.calls[k]))
    && (forall k :: logged <= k < |s.log| && s.log[k].before.Nil? ==> s.log[k].id < n)
  }

  lemma StepKeepsNonePast(s: State, step: Step, resettable: bool, n: nat, logged: nat)
    requires Inv(s) && Enabled(s, step) && s.needsReset && NonePast(s, n, logged)
    ensures NonePast(Apply(s, step, resettable), n, logged)
  {
    if step.Advance? {
      ChecksWhileUnreset(s, step, resettable);
      hide Apply, Inv;
    }
  }

  /** While a reset is outstanding no call passes the reset check, and only a call past it takes
      the workflow from no owner. */
  lemma ChecksWhileUnreset(s: State, step: Step, resettable: bool)
    requires Inv(s) && Enabled(s, step) && s.needsReset && step.Advance?
    ensures var t, id := Apply(s, step, resettable), step.id;
      && |t.calls| == |s.calls| && t.calls == s.calls[id := t.calls[id]]
      && (PastCheck(t.calls[id]) ==> PastCheck(s.calls[id]))
      && (t.log == s.log || (exists c :: t.log == s.log + [c] && c.id == id && (c.before.Nil? ==> PastCheck(s.calls[id]))))
  {
    assert CallInv(s, s.calls[step.id]);
  }

  lemma {:induction false} UnresetKeepsNonePast(s: State, steps: seq<Step>, resettable: bool, t: State, n: nat, logged: nat)
    requires Inv(s) && NonePast(s, n, logged) && LeadsUnreset(s, steps, resettable, t)
    ensures NonePast(t, n, logged)
    decreases steps
  {
    if steps != [] {
      StepKeepsInv(s, steps[0], resettable);
      StepKeepsNonePast(s, steps[0], resettable, n, logged);
      UnresetKeepsNonePast(Apply(s, steps[0], resettable), steps[1..], resettable, t, n, logged);
    }
  }

  /** As long as a reset stays outstanding, a call that began after it was asked for never
      takes the workflow from no owner: whoever does so had begun before. */
  lemma LaterTakesExcluded(steps: seq<Step>, resettable: bool, s: State, more: seq<Step>, t: State, k: nat)
    requires Leads(Initial, steps, resettable, s) && LeadsUnreset(s, more, resettable, t)
    requires |s.log| <= k < |t.log| && t.log[k].before.Nil?
    ensures t.log[k].id < |s.calls|
  {
    LeadsKeepsInv(Initial, steps, resettable, s);
    UnresetKeepsNonePast(s, more, resettable, t, |s.calls|, |s.log|);
  }

  // ---------------------------------------------------------------- whose flag

  /** The `k`-th change is the last one made by a take. */
  ghost predicate IsLastTake(log: seq<Change>, k: nat) {
    k < |log| && log[k].request.Take? && forall j :: k < j < |log| ==> log[j].request.Release?
  }

  /** The workflow is owned as a subworkflow if and only if the last take asked for that. */
  ghost predicate FlagOfTake(log: seq<Change>, flag: bool) {
    exists k: nat :: IsLastTake(log, k) && log[k].request.subworkflow == flag
  }

  lemma FlagStep(log: seq<Change>, c: Change, flag: bool)
    ensures FlagOfTake(log + [c], flag) <==> if c.request.Take? then c.request.subworkflow == flag else FlagOfTake(log, flag)
  {
    var all := log + [c];
    if c.request.Take? {
      assert IsLastTake(all, |log|);
    } else {
      assert all[|log|] == c && forall j :: 0 <= j < |log| ==> all[j] == log[j];
      forall k: nat ensures IsLastTake(all, k) <==> IsLastTake(log, k) {
        if IsLastTake(all, k) { assert k != |log|; }
      }
    }
  }

  /** The records a call holds carry the right flag: a take's own one, a hand-over that of the owner
      it replaces. */
  ghost predicate FlagHeld(s: State, c: Call) {
    match c.place
    case Loading(mine) => c.request.Take? ==> CarriesFlag(s, mine, c.request.subworkflow)
    case CheckingReset(mine) => c.request.Take? && CarriesFlag(s, mine, c.request.subworkflow)
    case Swapping(expected, next, mine) =>
      if c.request.Take? then CarriesFlag(s, mine, c.request.subworkflow) && next == Some(mine)
      else next.Some? ==>
        && expected.Some? && expected.value < |s.records|
        && CarriesFlag(s, next.value, s.records[expected.value].subworkflow)
    case _ => true
  }

  predicate CarriesFlag(s: State, mine: nat, flag: bool) {
    mine < |s.records| && s.records[mine].subworkflow == flag
  }

  ghost predicate FlagInv(s: State) {
    && (s.owner.Some? ==> s.owner.value < |s.records| && FlagOfTake(s.log, s.records[s.owner.value].subworkflow))
    && forall k :: 0 <= k < |s.calls| ==> FlagHeld(s, s.calls[k])
  }

  lemma FlagGrowth(s: State, t: State, c: Call)
    requires FlagHeld(s, c) && s.records <= t.records
    ensures FlagHeld(t, c)
  {
  }

  lemma FlagMoved(s: State, step: Step, resettable: bool)
    requires FlagInv(s) && Enabled(s, step) && step.Advance?
    ensures FlagsMoved(s, Apply(s, step, resettable), step.id)
  {
    var id := step.id;
    assert FlagHeld(s, s.calls[id]);
    hide FlagOfTake, FlagsMoved;
    match s.calls[id].place
    case Loading(_) => FlagLoaded(s, id);
    case _ => FlagElsewhere(s, step, resettable);
  }

  ghost predicate FlagsMoved(s: State, t: State, id: nat)
    requires id < |s.calls|
  {
    s.records <= t.records && |t.calls| == |s.calls| && t.calls == s.calls[id := t.calls[id]] && FlagHeld(t, t.calls[id])
  }

  lemma FlagLoaded(s: State, id: nat)
    requires id < |s.calls| && s.calls[id].place.Loading? && (s.owner.Some? ==> s.owner.value < |s.records|)
    requires FlagHeld(s, s.calls[id])
    ensures FlagsMoved(s, LoadOwner(s, id), id)
  {
    var t, c := LoadOwner(s, id), s.calls[id];
    assert t.calls[id].request == c.request;
    if c.request.Take? {
      assert CarriesFlag(s, c.place.mine, c.request.subworkflow) && t.records == s.records;
    } else if t.calls[id].place.Swapping? {
      assert s.records <= t.records && t.calls[id].place.expected == s.owner;
      var o := s.records[s.owner.value];
      assert t.records[s.owner.value] == o;
      if t.calls[id].place.next.Some? {
        assert t.records == s.records + [Owner(c.request.target, o.subworkflow)];
        assert t.calls[id].place.next == Some(|s.records|);
        assert CarriesFlag(t, |s.records|, o.subworkflow);
      }
    }
  }

  lemma FlagElsewhere(s: State, step: Step, resettable: bool)
    requires Enabled(s, step) && step.Advance? && (s.owner.Some? ==> s.owner.value < |s.records|)
    requires FlagHeld(s, s.calls[step.id]) && !s.calls[step.id].place.Loading?
    ensures FlagsMoved(s, Apply(s, step, resettable), step.id)
  {
  }

  lemma FlagOwner(s: State, step: Step, resettable: bool)
    requires FlagInv(s) && Enabled(s, step) && step.Advance?
    ensures var t := Apply(s, step, resettable);
      t.owner.Some? ==> t.owner.value < |t.records| && FlagOfTake(t.log, t.records[t.owner.value].subworkflow)
  {
    var c := s.calls[step.id];
    assert FlagHeld(s, c);
    hide FlagOfTake;
    if c.place.Swapping? && s.owner == c.place.expected && c.place.next.Some? {
      FlagStep(s.log, Change(step.id, c.request, OwnerToken(s), TokenAt(s, c.place.next)), s.records[c.place.next.value].subworkflow);
    }
  }

  lemma StepKeepsFlag(s: State, step: Step, resettable: bool)
    requires FlagInv(s) && Enabled(s, step)
    ensures FlagInv(Apply(s, step, resettable))
  {
    var t := Apply(s, step, resettable);
    if step.Advance? {
      FlagMoved(s, step, resettable);
      assert FlagsMoved(s, t, step.id);
      FlagOwner(s, step, resettable);
      hide Apply, FlagHeld, FlagOfTake;
      forall k | 0 <= k < |t.calls| ensures FlagHeld(t, t.calls[k]) {
        if k != step.id { FlagGrowth(s, t, s.calls[k]); }
      }
    } else {
      forall k | 0 <= k < |t.calls| ensures FlagHeld(t, t.calls[k]) {
        if k < |s.calls| { FlagGrowth(s, t, s.calls[k]); }
      }
    }
  }

  lemma {:induction false} LeadsKeepsFlag(s: State, steps: seq<Step>, resettable: bool, t: State)
    requires FlagInv(s) && Leads(s, steps, resettable, t)
    ensures FlagInv(t)
    decreases steps
  {
    if steps != [] {
      StepKeepsFlag(s, steps[0], resettable);
      LeadsKeepsFlag(Apply(s, steps[0], resettable), steps[1..], resettable, t);
    }
  }

  /** In every reachable state an owner owns the workflow the way the last take asked for, however
      often it was handed over since. */
  lemma FlagIsOfLastTake(steps: seq<Step>, resettable: bool, s: State)
    requires Leads(Initial, steps, resettable, s) && s.owner.Some?
    ensures s.owner.value < |s.records| && FlagOfTake(s.log, s.records[s.owner.value].subworkflow)
  {
    LeadsKeepsFlag(Initial, steps, resettable, s);
  }

  // ---------------------------------------------------------------- one call at a time

  /** The state after a call has made up to `n` steps undisturbed. */
  ghost function Alone(s: State, id: nat, n: nat, resettable: bool, resetSucceeds: bool): State
    requires Inv(s) && id < |s.calls|
    decreases n
  {
    if n == 0 || s.calls[id].place.Succeeded? || s.calls[id].place.Rejected? then s
    else
      var t := Apply(s, Advance(id, resetSucceeds), resettable);
      StepKeepsInv(s, Advance(id, resetSucceeds), resettable);
      KeepsCalls(s, id, resettable, resetSucceeds);
      Alone(t, id, n - 1, resettable, resetSucceeds)
  }

  lemma KeepsCalls(s: State, id: nat, resettable: bool, resetSucceeds: bool)
    requires Inv(s) && Enabled(s, Advance(id, resetSucceeds))
    ensures |Apply(s, Advance(id, resetSucceeds), resettable).calls| == |s.calls|
  {
    hide Inv;
    assert s.owner.Some? ==> s.owner.value < |s.records| by { InvBound(s); }
  }

  /** What a call comes to when no other one interferes, with the owner's token and flag. */
  function Verdict(request: Request, owner: Token, flag: bool, awaitsReset: bool): Place {
    match request
    case Take(token, newToken, sub) =>
      if newToken.Nil? then Rejected(NilNewToken)
      else if newToken.Plain? then Rejected(BadNewToken)
      else if owner.Nil? then
        if token != Nil then Rejected(TokenForUnowned) else if awaitsReset then Rejected(NeedsReset) else Succeeded
      else if owner == token || owner == newToken then Succeeded
      else Rejected(OwnedByOther(sub, flag))
    case Release(token, target) =>
      if target.Plain? then Rejected(BadTarget)
      else if owner.Nil? then Rejected(NotOwned)
      else if owner != token then Rejected(NotOwner)
      else Succeeded
  }

  /** The call has ended with the verdict: a take then has installed its new token, a release its
      target and done the reset if it could, and a rejected call has changed nothing. */
  ghost predicate EndsWith(s: State, t: State, id: nat, verdict: Place, resettable: bool, resetSucceeds: bool)
    requires id < |s.calls|
  {
    && id < |t.calls| && t.calls[id].place == verdict
    && if !verdict.Succeeded? then t.owner == s.owner && t.needsReset == s.needsReset && t.log == s.log && t.ends == s.ends
       else
         var r := s.calls[id].request;
         && OwnerToken(t) == (if r.Take? then r.newToken else r.target)
         && t.log == s.log + [Change(id, r, OwnerToken(s), OwnerToken(t))]
         && t.ends == s.ends + if r.Take? then [TakeEnded] else if resettable && resetSucceeds then [ResetDone] else []
  }

  /** The flag of the owner, when there is one. */
  function OwnerFlag(s: State): bool {
    s.owner.Some? && s.owner.value < |s.records| && s.records[s.owner.value].subworkflow
  }

  /** A call that has just begun, undisturbed: five steps, or fewer, and it ends as the arguments,
      the owner and the outstanding reset say. */
  lemma AloneVerdict(s: State, id: nat, resettable: bool, r: bool)
    requires Inv(s) && id < |s.calls| && s.calls[id].place.Started?
    ensures EndsWith(s, Alone(s, id, 5, resettable, r), id, Verdict(s.calls[id].request, OwnerToken(s), OwnerFlag(s), s.needsReset), resettable, r)
  {
    hide Inv, Alone, Apply, EndsWith, OwnerToken, OwnerFlag, Verdict;
    var t := OneStep(s, id, 5, resettable, r);
    StartFacts(s, id, resettable, r);
    if t.calls[id].place.Loading? {
      LoadVerdict(t, id, resettable, r);
    } else {
      AloneEnded(t, id, 4, resettable, r);
      Unchanged(s, t, id, resettable, r);
    }
    Forwards(s, t, Alone(t, id, 4, resettable, r), id, Verdict(s.calls[id].request, OwnerToken(s), OwnerFlag(s), s.needsReset), resettable, r);
  }

  lemma OneStep(s: State, id: nat, n: nat, resettable: bool, r: bool) returns (t: State)
    requires Inv(s) && id < |s.calls| && n > 0 && !s.calls[id].place.Succeeded? && !s.calls[id].place.Rejected?
    ensures s.owner.Some? ==> s.owner.value < |s.records|
    ensures t == Apply(s, Advance(id, r), resettable) && Inv(t) && |t.calls| == |s.calls|
    ensures Alone(s, id, n, resettable, r) == Alone(t, id, n - 1, resettable, r)
  {
    InvBound(s);
    t := Apply(s, Advance(id, r), resettable);
    StepKeepsInv(s, Advance(id, r), resettable);
    KeepsCalls(s, id, resettable, r);
    hide Inv, Apply;
  }

  lemma AloneEnded(s: State, id: nat, n: nat, resettable: bool, r: bool)
    requires Inv(s) && id < |s.calls| && (s.calls[id].place.Succeeded? || s.calls[id].place.Rejected?)
    ensures Alone(s, id, n, resettable, r) == s
  {
    hide Inv;
  }

  /** The call has moved, and what others see is as it was. */
  ghost predicate Silent(s: State, t: State, id: nat)
    requires id < |s.calls|
  {
    && s.owner == t.owner && t.needsReset == s.needsReset && t.log == s.log && t.ends == s.ends
    && OwnerToken(t) == OwnerToken(s) && OwnerFlag(t) == OwnerFlag(s)
    && id < |t.calls| && t.calls[id].request == s.calls[id].request
  }

  lemma Unchanged(s: State, t: State, id: nat, resettable: bool, r: bool)
    requires id < |s.calls| && Silent(s, t, id) && t.calls[id].place.Rejected?
    ensures EndsWith(t, t, id, t.calls[id].place, resettable, r)
  {
  }

  lemma Forwards(s: State, t: State, u: State, id: nat, verdict: Place, resettable: bool, r: bool)
    requires id < |s.calls| && Silent(s, t, id) && EndsWith(t, u, id, verdict, resettable, r)
    ensures EndsWith(s, u, id, verdict, resettable, r)
  {
  }

  lemma StartFacts(s: State, id: nat, resettable: bool, r: bool)
    requires Inv(s) && id < |s.calls| && s.calls[id].place.Started?
    ensures var t, req := Apply(s, Advance(id, r), resettable), s.calls[id].request;
      && Silent(s, t, id)
      && (t.calls[id].place.Loading? ||
          (t.calls[id].place.Rejected? && t.calls[id].place == Verdict(req, OwnerToken(s), OwnerFlag(s), s.needsReset)))
      && (t.calls[id].place.Loading? <==> if req.Take? then req.newToken.Ref? else !req.target.Plain?)
  {
  }

  lemma LoadVerdict(s: State, id: nat, resettable: bool, r: bool)
    requires Inv(s) && id < |s.calls| && s.calls[id].place.Loading?
    requires var req := s.calls[id].request; if req.Take? then req.newToken.Ref? else !req.target.Plain?
    ensures EndsWith(s, Alone(s, id, 4, resettable, r), id, Verdict(s.calls[id].request, OwnerToken(s), OwnerFlag(s), s.needsReset), resettable, r)
  {
    hide Inv, Alone, Apply, EndsWith, OwnerToken, OwnerFlag, Verdict;
    var t := OneStep(s, id, 4, resettable, r);
    LoadFacts(s, id, resettable, r);
    if t.calls[id].place.Rejected? {
      AloneEnded(t, id, 3, resettable, r);
      Unchanged(s, t, id, resettable, r);
    } else if t.calls[id].place.CheckingReset? {
      CheckVerdict(t, id, resettable, r);
    } else {
      SwapVerdict(t, id, 3, resettable, r);
    }
    Forwards(s, t, Alone(t, id, 3, resettable, r), id, Verdict(s.calls[id].request, OwnerToken(s), OwnerFlag(s), s.needsReset), resettable, r);
  }

  lemma LoadFacts(s: State, id: nat, resettable: bool, r: bool)
    requires Inv(s) && id < |s.calls| && s.calls[id].place.Loading?
    requires var req := s.calls[id].request; if req.Take? then req.newToken.Ref? else !req.target.Plain?
    ensures var t, req := Apply(s, Advance(id, r), resettable), s.calls[id].request;
      var place, verdict := t.calls[id].place, Verdict(req, OwnerToken(s), OwnerFlag(s), s.needsReset);
      && Silent(s, t, id)
      && match place
         case Rejected(_) => verdict == place
         case CheckingReset(_) => s.owner.None? && verdict == if s.needsReset then Rejected(NeedsReset) else Succeeded
         case Swapping(expected, _, _) => expected == s.owner && verdict == Succeeded
         case _ => false
  {
    assert s.owner.Some? ==> s.records[s.owner.value].token.Ref?;
    hide CallInv, LegalChange;
  }

  lemma CheckVerdict(s: State, id: nat, resettable: bool, r: bool)
    requires Inv(s) && id < |s.calls| && s.calls[id].place.CheckingReset? && s.owner.None?
    ensures EndsWith(s, Alone(s, id, 3, resettable, r), id, if s.needsReset then Rejected(NeedsReset) else Succeeded, resettable, r)
  {
    hide Inv, Alone, Apply, EndsWith, OwnerToken, OwnerFlag, Verdict;
    var t := OneStep(s, id, 3, resettable, r);
    CheckFacts(s, id, resettable, r);
    if s.needsReset {
      AloneEnded(t, id, 2, resettable, r);
      Unchanged(s, t, id, resettable, r);
    } else {
      SwapVerdict(t, id, 2, resettable, r);
    }
    Forwards(s, t, Alone(t, id, 2, resettable, r), id, if s.needsReset then Rejected(NeedsReset) else Succeeded, resettable, r);
  }

  lemma CheckFacts(s: State, id: nat, resettable: bool, r: bool)
    requires Inv(s) && id < |s.calls| && s.calls[id].place.CheckingReset? && s.owner.None?
    ensures var t := Apply(s, Advance(id, r), resettable);
      var place := t.calls[id].place;
      && Silent(s, t, id)
      && if s.needsReset then place == Rejected(NeedsReset) else place.Swapping? && place.expected == t.owner
  {
    hide CallInv, LegalChange;
  }

  lemma SwapVerdict(s: State, id: nat, n: nat, resettable: bool, r: bool)
    requires Inv(s) && id < |s.calls| && s.calls[id].place.Swapping? && s.calls[id].place.expected == s.owner && n >= 2
    ensures EndsWith(s, Alone(s, id, n, resettable, r), id, Succeeded, resettable, r)
  {
    hide Inv, Alone, Apply, EndsWith, OwnerToken, OwnerFlag, Verdict;
    var t := OneStep(s, id, n, resettable, r);
    SwapFacts(s, id, resettable, r);
    var u := OneStep(t, id, n - 1, resettable, r);
    FinishFacts(s, t, id, resettable, r);
    AloneEnded(u, id, n - 2, resettable, r);
  }

  lemma SwapFacts(s: State, id: nat, resettable: bool, r: bool)
    requires Inv(s) && id < |s.calls| && s.calls[id].place.Swapping? && s.calls[id].place.expected == s.owner
    ensures Swapped(s, Apply(s, Advance(id, r), resettable), id)
  {
    assert CallInv(s, s.calls[id]);
    hide CallInv, LegalChange;
    assert CallHolds(s, s.calls[id]) by { HoldsToken(s, s.calls[id]); }
  }

  ghost predicate Swapped(s: State, t: State, id: nat)
    requires id < |s.calls|
  {
    && id < |t.calls| && t.calls[id].place.Finishing?
    && var req := s.calls[id].request;
    && t.calls[id].request == req
    && OwnerToken(t) == (if req.Take? then req.newToken else req.target)
    && t.log == s.log + [Change(id, req, OwnerToken(s), OwnerToken(t))] && t.ends == s.ends
  }

  predicate CallHolds(s: State, c: Call)
    requires c.place.Swapping?
  {
    TokenAt(s, c.place.next) == if c.request.Take? then c.request.newToken else c.request.target
  }

  lemma HoldsToken(s: State, c: Call)
    requires CallInv(s, c) && c.place.Swapping?
    ensures CallHolds(s, c)
  {
  }

  lemma FinishFacts(s: State, t: State, id: nat, resettable: bool, r: bool)
    requires Inv(t) && id < |s.calls| && Swapped(s, t, id)
    ensures var u := Apply(t, Advance(id, r), resettable);
      && id < |u.calls| && u.calls[id].place.Succeeded?
      && EndsWith(s, u, id, Succeeded, resettable, r)
  {
    InvBound(t);
    hide Inv;
  }

  /** One call after the other, from any reachable state: each ends as its arguments, the owner's
      token, the way the last take owns the workflow, and an outstanding reset say. */
  lemma UndisturbedCall(steps: seq<Step>, resettable: bool, s: State, request: Request, r: bool, flag: bool)
    requires Leads(Initial, steps, resettable, s) && (s.owner.Some? ==> FlagOfTake(s.log, flag))
    ensures Inv(Beginning(s, request))
    ensures EndsWith(Beginning(s, request), Alone(Beginning(s, request), |s.calls|, 5, resettable, r), |s.calls|,
                     Verdict(request, OwnerToken(s), flag, resettable && AwaitsReset(s.ends)), resettable, r)
  {
    var t := Beginning(s, request);
    LeadsKeepsInv(Initial, steps, resettable, s);
    NeedsResetIff(steps, resettable, s);
    StepKeepsInv(s, Begin(request), resettable);
    InvBound(s);
    assert t == Apply(s, Begin(request), resettable);
    if s.owner.Some? {
      FlagIsOfLastTake(steps, resettable, s);
      OneFlag(s.log, flag, s.records[s.owner.value].subworkflow);
    }
    BeginFacts(s, request, flag);
    hide Inv, Apply, FlagOfTake, AwaitsReset, Alone, EndsWith;
    AloneVerdict(t, |s.calls|, resettable, r);
  }

  function Beginning(s: State, request: Request): (t: State)
    ensures |t.calls| == |s.calls| + 1
  {
    s.(calls := s.calls + [Call(request, Started)])
  }

  lemma OneFlag(log: seq<Change>, a: bool, b: bool)
    requires FlagOfTake(log, a) && FlagOfTake(log, b)
    ensures a == b
  {
    var i: nat :| IsLastTake(log, i) && log[i].request.subworkflow == a;
    var j: nat :| IsLastTake(log, j) && log[j].request.subworkflow == b;
  }

  lemma BeginFacts(s: State, request: Request, flag: bool)
    requires Inv(s) && (s.owner.Some? ==> s.records[s.owner.value].subworkflow == flag)
    ensures var t := Beginning(s, request);
      && OwnerToken(t) == OwnerToken(s) && t.needsReset == s.needsReset && t.calls[|s.calls|] == Call(request, Started)
      && Verdict(request, OwnerToken(t), OwnerFlag(t), t.needsReset) == Verdict(request, OwnerToken(s), flag, s.needsReset)
  {
    hide CallInv, LegalChange;
  }

  /** One more step at the end of a run. */
  lemma {:induction false} LeadsOn(s: State, steps: seq<Step>, resettable: bool, t: State, step: Step)
    requires Leads(s, steps, resettable, t) && Enabled(t, step) && (t.owner.Some? ==> t.owner.value < |t.records|)
    ensures Leads(s, steps + [step], resettable, Apply(t, step, resettable))
    decreases steps
  {
    if steps == [] {
      assert ([step])[1..] == [];
      assert steps + [step] == [step];
    } else {
      LeadsOn(Apply(s, steps[0], resettable), steps[1..], resettable, t, step);
      assert (steps + [step])[1..] == steps[1..] + [step];
    }
  }

  /** What is not excluded: a take that passed the reset check before somebody else took and
      released the workflow still succeeds while the reset of that release is outstanding. */
  lemma TakeBeforeReset() returns (steps: seq<Step>, s: State)
    ensures Leads(Initial, steps, true, s)
    ensures s.needsReset && |s.calls| == 3 && OwnerToken(s) == Ref(1)
    ensures s.calls[0].request == Take(Nil, Ref(1), false) && s.calls[0].place.Finishing?
    ensures s.calls[2].request == Release(Ref(2), Nil) && s.calls[2].place.Finishing?
  {
    hide Leads;
    steps, s := Overtaken();
    steps, s := Play(steps, s, Begin(Release(Ref(2), Nil)));
    steps, s := Play(steps, s, Advance(2, false));
    steps, s := Play(steps, s, Advance(2, false));
    steps, s := Play(steps, s, Advance(2, false));
    steps, s := Play(steps, s, Advance(0, false));
  }

  lemma Play(steps: seq<Step>, s: State, step: Step) returns (steps': seq<Step>, t: State)
    requires Leads(Initial, steps, true, s) && Enabled(s, step) && (s.owner.Some? ==> s.owner.value < |s.records|)
    ensures Leads(Initial, steps', true, t) && t == Apply(s, step, true)
  {
    steps', t := steps + [step], Apply(s, step, true);
    LeadsOn(Initial, steps, true, s, step);
  }

  /** Another take comes first and stores that a reset will be needed. */
  lemma Overtaken() returns (steps: seq<Step>, s: State)
    ensures Leads(Initial, steps, true, s)
    ensures s.owner == Some(1) && s.records == [Owner(Ref(1), false), Owner(Ref(2), false)] && s.needsReset
    ensures |s.calls| == 2 && s.calls[0] == Call(Take(Nil, Ref(1), false), Swapping(None, Some(0), 0))
  {
    hide Leads;
    steps, s := Slow();
    steps, s := Play(steps, s, Begin(Take(Nil, Ref(2), false)));
    steps, s := Play(steps, s, Advance(1, false));
    steps, s := Play(steps, s, Advance(1, false));
    steps, s := Play(steps, s, Advance(1, false));
    steps, s := Play(steps, s, Advance(1, false));
    steps, s := Play(steps, s, Advance(1, false));
  }

  /** A take that has passed the reset check and is about to swap. */
  lemma Slow() returns (steps: seq<Step>, s: State)
    ensures Leads(Initial, steps, true, s)
    ensures s == State(None, [Owner(Ref(1), false)], false, [Call(Take(Nil, Ref(1), false), Swapping(None, Some(0), 0))], [], [])
  {
    steps, s := [], Initial;
    steps, s := Play(steps, s, Begin(Take(Nil, Ref(1), false)));
    steps, s := Play(steps, s, Advance(0, false));
    steps, s := Play(steps, s, Advance(0, false));
    steps, s := Play(steps, s, Advance(0, false));
  }
}
