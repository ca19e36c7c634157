/** The caching skill source: one active fetch per key, shared by concurrent callers. */
module SkillCache {
  import opened Messages

  type Skills = seq<string>

  /** A cache entry; `loading` is the channel that is closed when the active fetch ends. */
  datatype Entry = Entry(skills: Skills, loaded: bool, refreshed: int, loading: Option<nat>)

  datatype FetchResult = Fetched(skills: Skills) | FetchFailed | FetchPanicked

  datatype Outcome = Returned(skills: Skills) | Failed | Panicked

  /** Where a caller is. It holds the mutex while `Checking` and while `Publishing`. */
  datatype Place =
    | Entering
    | AtLoop
    | Checking
    | Waiting(channel: nat)
    | Fetching(channel: nat)
    | Unwinding(channel: nat, result: FetchResult)
    | Publishing(channel: nat, result: FetchResult)
    | Done(outcome: Outcome)

  datatype Caller = Caller(key: string, cancelled: bool, place: Place)

  datatype Fetch = Fetch(key: string, result: FetchResult, ended: int)

  /** `fetches` is the log of ended fetches, which no step reads. */
  datatype State = State(
    entries: map<string, Entry>, lock: Option<nat>, closed: set<nat>, nextChannel: nat,
    clock: int, sourceClosed: bool, callers: map<nat, Caller>, fetches: seq<Fetch>)

  datatype Step =
    | Call(id: nat, key: string)
    | Enter(id: nat)
    | LockLoop(id: nat)
    | Check(id: nat)
    | Wake(id: nat)
    | Abandon(id: nat)
    | SourceReturns(id: nat, result: FetchResult)
    | LockPublish(id: nat)
    | Publish(id: nat)
    | Cancel(id: nat)
    | Tick(elapsed: nat)
    | CloseSource

  const Initial := State(map[], None, {}, 0, 0, false, map[], [])

  const NewEntry := Entry([], false, 0, None)

  /** The bucket of a call: without a selected key the shared one. */
  function KeyOf(selected: Option<string>): string {
    if selected.None? then "" else "key:" + selected.value
  }

  lemma KeysDistinct(a: Option<string>, b: Option<string>)
    ensures KeyOf(a) == KeyOf(b) <==> a == b
  {
    if a.Some? && b.Some? { assert ("key:" + a.value)[4..] == a.value && ("key:" + b.value)[4..] == b.value; }
    if a.Some? { assert KeyOf(a)[0] == 'k'; }
    if b.Some? { assert KeyOf(b)[0] == 'k'; }
  }

  predicate IsFresh(e: Entry, interval: Option<int>, clock: int) {
    e.loaded && (interval.None? || clock - e.refreshed < interval.value)
  }

  function EntryAt(s: State, key: string): Entry {
    if key in s.entries then s.entries[key] else NewEntry
  }

  predicate Enabled(s: State, step: Step) {
    match step
    case Call(id, _) => id !in s.callers
    case Enter(id) => id in s.callers && s.callers[id].place.Entering?
    case LockLoop(id) => id in s.callers && s.callers[id].place.AtLoop? && s.lock.None?
    case Check(id) => id in s.callers && s.callers[id].place.Checking?
    case Wake(id) => id in s.callers && s.callers[id].place.Waiting? && s.callers[id].place.channel in s.closed
    case Abandon(id) => id in s.callers && s.callers[id].place.Waiting? && s.callers[id].cancelled
    case SourceReturns(id, _) => id in s.callers && s.callers[id].place.Fetching?
    case LockPublish(id) => id in s.callers && s.callers[id].place.Unwinding? && s.lock.None?
    case Publish(id) => id in s.callers && s.callers[id].place.Publishing? && s.callers[id].key in s.entries
    case Cancel(id) => id in s.callers
    case Tick(_) => true
    case CloseSource => true
  }

  function Move(s: State, id: nat, place: Place): State
    requires id in s.callers
  {
    s.(callers := s.callers[id := s.callers[id].(place := place)])
  }

  /** The critical section at the top of the loop: serve from the cache, give up, wait for the
      active fetch, or start one. */
  function CheckCache(s: State, id: nat, interval: Option<int>): State
    requires id in s.callers
  {
    var c := s.callers[id];
    var e := EntryAt(s, c.key);
    var s' := s.(entries := s.entries[c.key := e], lock := None);
    if IsFresh(e, interval, s.clock) then Move(s', id, Done(Returned(e.skills)))
    else if c.cancelled then Move(s', id, Done(Failed))
    else if e.loading.Some? then Move(s', id, Waiting(e.loading.value))
    else
      Move(s'.(entries := s.entries[c.key := e.(loading := Some(s.nextChannel))], nextChannel := s.nextChannel + 1),
           id, Fetching(s.nextChannel))
  }

  /** The deferred function of a fetch: store a success, clear the loading mark, wake waiters. */
  function PublishFetch(s: State, id: nat): State
    requires Enabled(s, Publish(id))
  {
    var c := s.callers[id];
    var r := c.place.result;
    var e := s.entries[c.key];
    var e' := if r.Fetched? then Entry(r.skills, true, s.clock, None) else e.(loading := None);
    var outcome := match r case Fetched(l) => Returned(l) case FetchFailed => Failed case FetchPanicked => Panicked;
    Move(s.(entries := s.entries[c.key := e'], closed := s.closed + {c.place.channel}, lock := None,
            fetches := s.fetches + [Fetch(c.key, r, s.clock)]),
         id, Done(outcome))
  }

  function Apply(s: State, step: Step, interval: Option<int>): State
    requires Enabled(s, step)
  {
    match step
    case Call(id, key) => s.(callers := s.callers[id := Caller(key, false, Entering)])
    case Enter(id) => Move(s, id, if s.sourceClosed then Done(Failed) else AtLoop)
    case LockLoop(id) => Move(s.(lock := Some(id)), id, Checking)
    case Check(id) => CheckCache(s, id, interval)
    case Wake(id) => Move(s, id, AtLoop)
    case Abandon(id) => Move(s, id, Done(Failed))
    case SourceReturns(id, r) => Move(s, id, Unwinding(s.callers[id].place.channel, r))
    case LockPublish(id) =>
      Move(s.(lock := Some(id)), id, Publishing(s.callers[id].place.channel, s.callers[id].place.result))
    case Publish(id) => PublishFetch(s, id)
    case Cancel(id) => s.(callers := s.callers[id := s.callers[id].(cancelled := true)])
    case Tick(d) => s.(clock := s.clock + d)
    case CloseSource => s.(sourceClosed := true)
  }

  /** A state some interleaving of steps leads to. */
  ghost predicate Leads(s: State, steps: seq<Step>, interval: Option<int>, t: State)
    decreases steps
  {
    if steps == [] then s == t
    else Enabled(s, steps[0]) && Leads(Apply(s, steps[0], interval), steps[1..], interval, t)
  }

  // ---------------------------------------------------------------- single flight

  predicate IsFetching(c: Caller) {
    c.place.Fetching? || c.place.Unwinding? || c.place.Publishing?
  }

  predicate HoldsLock(c: Caller) {
    c.place.Checking? || c.place.Publishing?
  }

  /** The mutex is held by at most one caller, the one in a critical section. */
  ghost predicate LockInv(s: State) {
    && (forall id :: id in s.callers && HoldsLock(s.callers[id]) ==> s.lock == Some(id))
    && (s.lock.Some? ==> s.lock.value in s.callers && HoldsLock(s.callers[s.lock.value]))
  }

  /** A caller is fetching a key only under the loading mark of its own channel. */
  ghost predicate FetcherInv(s: State) {
    forall id :: id in s.callers && IsFetching(s.callers[id]) ==>
      && s.callers[id].key in s.entries
      && s.entries[s.callers[id].key].loading == Some(s.callers[id].place.channel)
  }

  ghost predicate Fetches(s: State, id: nat, key: string, channel: nat) {
    id in s.callers && IsFetching(s.callers[id]) && s.callers[id].key == key && s.callers[id].place.channel == channel
  }

  /** A loading mark belongs to a caller that is fetching, and its channel is open. */
  ghost predicate LoadingInv(s: State) {
    forall key :: key in s.entries && s.entries[key].loading.Some? ==>
      && s.entries[key].loading.value < s.nextChannel
      && s.entries[key].loading.value !in s.closed
      && exists id :: Fetches(s, id, key, s.entries[key].loading.value)
  }

  /** Channels tell fetches apart. */
  ghost predicate ChannelInv(s: State) {
    forall a, b ::
      (a in s.callers && b in s.callers && IsFetching(s.callers[a]) && IsFetching(s.callers[b])
       && s.callers[a].place.channel == s.callers[b].place.channel) ==> a == b
  }

  /** A waiter waits on a closed channel or on the channel of the active fetch of its key. */
  ghost predicate WaiterInv(s: State) {
    forall id :: id in s.callers && s.callers[id].place.Waiting? ==>
      || s.callers[id].place.channel in s.closed
      || (s.callers[id].key in s.entries && s.entries[s.callers[id].key].loading == Some(s.callers[id].place.channel))
  }

  ghost predicate Inv(s: State) {
    LockInv(s) && FetcherInv(s) && LoadingInv(s) && ChannelInv(s) && WaiterInv(s)
    && forall channel :: channel in s.closed ==> channel < s.nextChannel
  }

  /** Loading marks stay in order when no fetch begins or ends. */
  lemma LoadingKept(s: State, t: State)
    requires LoadingInv(s) && t.closed == s.closed && t.nextChannel == s.nextChannel
    requires forall key :: key in t.entries && t.entries[key].loading.Some? ==>
      key in s.entries && s.entries[key].loading == t.entries[key].loading
    requires forall id, key, channel :: Fetches(s, id, key, channel) ==> Fetches(t, id, key, channel)
    ensures LoadingInv(t)
  {
    forall key | key in t.entries && t.entries[key].loading.Some?
      ensures exists id :: Fetches(t, id, key, t.entries[key].loading.value)
    {
      var id :| Fetches(s, id, key, s.entries[key].loading.value);
      assert Fetches(t, id, key, t.entries[key].loading.value);
    }
  }

  /** A step of one caller that neither begins nor ends a fetch keeps the invariant, if the lock
      is in order afterwards and the caller waits on nothing but a proper channel. */
  lemma OneMoves(s: State, t: State, id: nat)
    requires Inv(s) && LockInv(t) && t.closed == s.closed && t.nextChannel == s.nextChannel
    requires forall key :: EntryAt(t, key).loading == EntryAt(s, key).loading
    requires id in t.callers && forall k :: k in s.callers || k in t.callers ==>
      k == id || (k in s.callers && k in t.callers && t.callers[k] == s.callers[k])
    requires id in s.callers ==> t.callers[id].key == s.callers[id].key
    requires IsFetching(t.callers[id]) <==> id in s.callers && IsFetching(s.callers[id])
    requires IsFetching(t.callers[id]) ==> t.callers[id].place.channel == s.callers[id].place.channel
    requires t.callers[id].place.Waiting? ==> ProperlyWaiting(s, t.callers[id])
    ensures Inv(t)
  {
    hide LockInv;
    assert LoadingInv(t) by {
      forall k, key, channel | Fetches(s, k, key, channel) ensures Fetches(t, k, key, channel) {
      }
      assert forall key :: key in t.entries ==> EntryAt(t, key) == t.entries[key];
      assert forall key :: key in s.entries ==> EntryAt(s, key) == s.entries[key];
      hide FetcherInv, ChannelInv, WaiterInv, Fetches;
      LoadingKept(s, t);
    }
    hide LoadingInv;
    assert FetcherInv(t) by {
      hide ChannelInv, WaiterInv;
      forall k | k in t.callers && IsFetching(t.callers[k])
        ensures EntryAt(t, t.callers[k].key).loading == Some(t.callers[k].place.channel)
      {
        assert k in s.callers && IsFetching(s.callers[k]);
        assert EntryAt(s, s.callers[k].key).loading == Some(s.callers[k].place.channel);
      }
    }
    assert ChannelInv(t) by { hide FetcherInv, WaiterInv; }
    assert WaiterInv(t) by {
      hide FetcherInv, ChannelInv;
      forall k | k in t.callers && t.callers[k].place.Waiting? ensures ProperlyWaiting(t, t.callers[k]) {
        if k != id { assert ProperlyWaiting(s, s.callers[k]); }
        assert EntryAt(t, t.callers[k].key).loading == EntryAt(s, t.callers[k].key).loading;
      }
    }
  }

  predicate ProperlyWaiting(s: State, c: Caller)
    requires c.place.Waiting?
  {
    c.place.channel in s.closed || EntryAt(s, c.key).loading == Some(c.place.channel)
  }

  /** A step that moves one caller between places of the same kind keeps the invariant. */
  lemma QuietMove(s: State, id: nat, place: Place)
    requires Inv(s) && id in s.callers
    requires var c, c' := s.callers[id], s.callers[id].(place := place);
      && HoldsLock(c') == HoldsLock(c)
      && IsFetching(c') == IsFetching(c) && (IsFetching(c) ==> place.channel == c.place.channel)
      && !c'.place.Waiting?
    ensures Inv(Move(s, id, place))
  {
    OneMoves(s, Move(s, id, place), id);
  }

  lemma TakeLock(s: State, id: nat, place: Place)
    requires Inv(s) && s.lock.None? && id in s.callers
    requires var c, c' := s.callers[id], s.callers[id].(place := place);
      && HoldsLock(c')
      && IsFetching(c') == IsFetching(c) && (IsFetching(c) ==> place.channel == c.place.channel)
    ensures Inv(Move(s.(lock := Some(id)), id, place))
  {
    OneMoves(s, Move(s.(lock := Some(id)), id, place), id);
  }

  /** Leaving the critical section without a fetch. */
  lemma LeaveCheck(s: State, id: nat, place: Place)
    requires Inv(s) && Enabled(s, Check(id))
    requires place.Done? || (place.Waiting? && EntryAt(s, s.callers[id].key).loading == Some(place.channel))
    ensures var key := s.callers[id].key;
      Inv(Move(s.(entries := s.entries[key := EntryAt(s, key)], lock := None), id, place))
  {
    var c := s.callers[id].key;
    var t := Move(s.(entries := s.entries[c := EntryAt(s, c)], lock := None), id, place);
    OneMoves(s, t, id);
  }

  /** Leaving it as the one caller that fetches. */
  lemma StartFetch(s: State, id: nat)
    requires Inv(s) && Enabled(s, Check(id)) && EntryAt(s, s.callers[id].key).loading.None?
    ensures var key := s.callers[id].key;
      var e := EntryAt(s, key).(loading := Some(s.nextChannel));
      Inv(Move(s.(lock := None, entries := s.entries[key := e], nextChannel := s.nextChannel + 1),
               id, Fetching(s.nextChannel)))
  {
    var c := s.callers[id].key;
    var e := EntryAt(s, c).(loading := Some(s.nextChannel));
    var t := Move(s.(lock := None, entries := s.entries[c := e], nextChannel := s.nextChannel + 1),
                  id, Fetching(s.nextChannel));
    forall k | k in s.callers && IsFetching(s.callers[k])
      ensures s.callers[k].key != c && s.callers[k].place.channel < s.nextChannel
    {
    }
    assert LoadingInv(t) by {
      hide FetcherInv, ChannelInv, WaiterInv, LockInv;
      forall key | key in t.entries && t.entries[key].loading.Some?
        ensures exists k :: Fetches(t, k, key, t.entries[key].loading.value)
      {
        if key == c {
          assert Fetches(t, id, key, s.nextChannel);
        } else {
          var k :| Fetches(s, k, key, s.entries[key].loading.value);
          assert Fetches(t, k, key, t.entries[key].loading.value);
        }
      }
    }
    hide LoadingInv;
    assert FetcherInv(t) && LockInv(t) by { hide ChannelInv, WaiterInv; }
    assert ChannelInv(t) by { hide FetcherInv, WaiterInv, LockInv; }
    assert WaiterInv(t) by { hide FetcherInv, ChannelInv, LockInv; }
  }

  lemma CheckKeepsInv(s: State, id: nat, interval: Option<int>)
    requires Inv(s) && Enabled(s, Check(id))
    ensures Inv(CheckCache(s, id, interval))
  {
    hide Inv;
    var c := s.callers[id];
    var e := EntryAt(s, c.key);
    if IsFresh(e, interval, s.clock) {
      LeaveCheck(s, id, Done(Returned(e.skills)));
    } else if c.cancelled {
      LeaveCheck(s, id, Done(Failed));
    } else if e.loading.Some? {
      LeaveCheck(s, id, Waiting(e.loading.value));
    } else {
      StartFetch(s, id);
    }
  }

  lemma PublishKeepsInv(s: State, id: nat)
    requires Inv(s) && Enabled(s, Publish(id))
    ensures Inv(PublishFetch(s, id))
  {
    var t := PublishFetch(s, id);
    var c := s.callers[id];
    forall key | key in t.entries && t.entries[key].loading.Some?
      ensures t.entries[key].loading.value !in t.closed
      ensures exists k :: Fetches(t, k, key, t.entries[key].loading.value)
    {
      var k :| Fetches(s, k, key, s.entries[key].loading.value);
      assert k != id;
      assert Fetches(t, k, key, t.entries[key].loading.value);
    }
  }

  /** Every step of every caller keeps the protocol invariant. */
  lemma StepKeepsInv(s: State, step: Step, interval: Option<int>)
    requires Inv(s) && Enabled(s, step)
    ensures Inv(Apply(s, step, interval))
  {
    match step
    case Enter(id) => QuietMove(s, id, if s.sourceClosed then Done(Failed) else AtLoop);
    case LockLoop(id) => TakeLock(s, id, Checking);
    case Check(id) => CheckKeepsInv(s, id, interval);
    case Wake(id) => QuietMove(s, id, AtLoop);
    case Abandon(id) => QuietMove(s, id, Done(Failed));
    case SourceReturns(id, r) => QuietMove(s, id, Unwinding(s.callers[id].place.channel, r));
    case LockPublish(id) =>
      TakeLock(s, id, Publishing(s.callers[id].place.channel, s.callers[id].place.result));
    case Publish(id) => PublishKeepsInv(s, id);
    case _ => OutsideKeepsInv(s, step, interval);
  }

  lemma OutsideKeepsInv(s: State, step: Step, interval: Option<int>)
    requires Inv(s) && Enabled(s, step)
    requires step.Call? || step.Cancel? || step.Tick? || step.CloseSource?
    ensures Inv(Apply(s, step, interval))
  {
    if step.Call? {
      NewCallerKeepsInv(s, step.id, step.key);
    } else if step.Cancel? {
      CancelKeepsInv(s, step.id);
    } else {
      LoadingKept(s, Apply(s, step, interval));
    }
  }

  lemma NewCallerKeepsInv(s: State, id: nat, key: string)
    requires Inv(s) && id !in s.callers
    ensures Inv(s.(callers := s.callers[id := Caller(key, false, Entering)]))
  {
    OneMoves(s, s.(callers := s.callers[id := Caller(key, false, Entering)]), id);
  }

  lemma CancelKeepsInv(s: State, id: nat)
    requires Inv(s) && id in s.callers
    ensures Inv(s.(callers := s.callers[id := s.callers[id].(cancelled := true)]))
  {
    OneMoves(s, s.(callers := s.callers[id := s.callers[id].(cancelled := true)]), id);
  }

  lemma {:induction false} LeadsKeepsInv(s: State, steps: seq<Step>, interval: Option<int>, t: State)
    requires Inv(s) && Leads(s, steps, interval, t)
    ensures Inv(t)
    decreases steps
  {
    if steps != [] {
      StepKeepsInv(s, steps[0], interval);
      LeadsKeepsInv(Apply(s, steps[0], interval), steps[1..], interval, t);
    }
  }

  /** Single flight, over every interleaving: a key has a loading mark exactly when a caller is
      fetching it, that caller is the only one, and every waiter can count on being woken. */
  lemma SingleFlight(steps: seq<Step>, interval: Option<int>, t: State)
    requires Leads(Initial, steps, interval, t)
    ensures forall key :: EntryAt(t, key).loading.Some? <==>
      exists id :: id in t.callers && IsFetching(t.callers[id]) && t.callers[id].key == key
    ensures forall a, b ::
      (a in t.callers && b in t.callers && IsFetching(t.callers[a]) && IsFetching(t.callers[b]))
      ==> (t.callers[a].key == t.callers[b].key <==> a == b)
    ensures WaiterInv(t)
  {
    LeadsKeepsInv(Initial, steps, interval, t);
    forall key | EntryAt(t, key).loading.Some?
      ensures exists id :: id in t.callers && IsFetching(t.callers[id]) && t.callers[id].key == key
    {
      var id :| Fetches(t, id, key, t.entries[key].loading.value);
    }
  }

  // ---------------------------------------------------------------- what is cached

  /** Only a successful fetch changes what is cached for a key, and then to its result. */
  lemma OnlySuccessCaches(s: State, step: Step, interval: Option<int>, key: string)
    requires Inv(s) && Enabled(s, step)
    ensures var e, e' := EntryAt(s, key), EntryAt(Apply(s, step, interval), key);
      (e'.skills, e'.loaded, e'.refreshed) != (e.skills, e.loaded, e.refreshed) ==>
        && step.Publish? && s.callers[step.id].key == key
        && s.callers[step.id].place.result == Fetched(e'.skills) && e'.loaded && e'.refreshed == s.clock
  {
    hide Inv;
    if Elsewhere(step) {
      StepElsewhere(s, step, interval);
      hide Apply;
    }
  }

  predicate Elsewhere(step: Step) {
    !step.Check? && !step.Publish?
  }

  function StepId(step: Step): nat
    requires Elsewhere(step)
  {
    if step.Tick? || step.CloseSource? then 0 else step.id
  }

  /** Outside the critical sections a step touches neither the cache nor the log, moves at most
      one caller, and neither begins a fetch nor returns skills. */
  lemma StepElsewhere(s: State, step: Step, interval: Option<int>)
    requires Enabled(s, step) && Elsewhere(step)
    ensures var t, id := Apply(s, step, interval), StepId(step);
      && t.entries == s.entries && t.fetches == s.fetches && s.clock <= t.clock
      && (forall k :: k in t.callers && k != id ==> k in s.callers && t.callers[k] == s.callers[k])
      && (id in t.callers ==> StillOutside(s, id, t.callers[id]))
  {
  }

  predicate StillOutside(s: State, id: nat, c: Caller) {
    if id in s.callers then
      && c.key == s.callers[id].key
      && (c.place == s.callers[id].place || !ReturnedSkills(c))
      && (IsFetching(c) ==> IsFetching(s.callers[id]))
    else !IsFetching(c) && !ReturnedSkills(c)
  }

  predicate ReturnedSkills(c: Caller) {
    c.place.Done? && c.place.outcome.Returned?
  }

  predicate Succeeded(f: Fetch, key: string) {
    f.key == key && f.result.Fetched?
  }

  /** Some fetch of the key delivered the list. */
  ghost predicate Delivered(s: State, key: string, skills: Skills) {
    exists f :: f in s.fetches && f.key == key && f.result == Fetched(skills)
  }

  function Successes(fetches: seq<Fetch>, key: string): nat {
    if fetches == [] then 0
    else Successes(fetches[..|fetches| - 1], key) + if Succeeded(fetches[|fetches| - 1], key) then 1 else 0
  }

  /** Results come from the log of fetches of the same key. */
  ghost predicate ResultInv(s: State) {
    && (forall key :: key in s.entries && s.entries[key].loaded ==> Delivered(s, key, s.entries[key].skills))
    && (forall id :: id in s.callers && ReturnedSkills(s.callers[id]) ==>
          Delivered(s, s.callers[id].key, s.callers[id].place.outcome.skills))
  }

  lemma StepKeepsResults(s: State, step: Step, interval: Option<int>)
    requires Inv(s) && ResultInv(s) && Enabled(s, step)
    ensures ResultInv(Apply(s, step, interval))
  {
    hide Inv, ResultInv;
    if step.Publish? {
      PublishKeepsResults(s, step.id);
    } else if step.Check? {
      QuietKeepsResults(s, CheckCache(s, step.id, interval));
    } else {
      StepElsewhere(s, step, interval);
      hide Apply;
      QuietKeepsResults(s, Apply(s, step, interval));
    }
  }

  /** A step that ends no fetch, caches nothing and returns only what is cached. */
  lemma QuietKeepsResults(s: State, t: State)
    requires ResultInv(s) && t.fetches == s.fetches
    requires forall key :: key in t.entries && t.entries[key].loaded ==>
      key in s.entries && s.entries[key].loaded && t.entries[key].skills == s.entries[key].skills
    requires forall id :: id in t.callers && ReturnedSkills(t.callers[id]) ==>
      || (id in s.callers && ReturnedSkills(s.callers[id]) && t.callers[id].key == s.callers[id].key
          && t.callers[id].place == s.callers[id].place)
      || (t.callers[id].key in s.entries && s.entries[t.callers[id].key].loaded
          && t.callers[id].place.outcome.skills == s.entries[t.callers[id].key].skills)
    ensures ResultInv(t)
  {
    assert forall key, skills :: Delivered(s, key, skills) ==> Delivered(t, key, skills);
    hide Delivered;
  }

  lemma PublishKeepsResults(s: State, id: nat)
    requires ResultInv(s) && Enabled(s, Publish(id))
    ensures ResultInv(PublishFetch(s, id))
  {
    var c, t := s.callers[id], PublishFetch(s, id);
    assert t.fetches[|s.fetches|] == Fetch(c.key, c.place.result, s.clock);
    forall key, skills | Delivered(s, key, skills) ensures Delivered(t, key, skills) {
      var f :| f in s.fetches && f.key == key && f.result == Fetched(skills);
      assert f in t.fetches;
    }
    if c.place.result.Fetched? { assert Delivered(t, c.key, c.place.result.skills); }
    hide Delivered;
  }

  /** What one caller must satisfy for the invariant, in view of what is cached. */
  predicate CallerOnce(s: State, c: Caller) {
    var e := EntryAt(s, c.key);
    && (IsFetching(c) ==> !e.loaded)
    && (ReturnedSkills(c) ==> e.loaded && c.place.outcome.skills == e.skills)
  }

  /** Without expiry: one success per key, and everybody gets it. */
  ghost predicate OnceInv(s: State) {
    && (forall key :: Successes(s.fetches, key) == if EntryAt(s, key).loaded then 1 else 0)
    && (forall id :: id in s.callers ==> CallerOnce(s, s.callers[id]))
  }

  lemma PublishKeepsOnce(s: State, id: nat)
    requires Inv(s) && OnceInv(s) && Enabled(s, Publish(id))
    ensures OnceInv(PublishFetch(s, id))
  {
    var t, c := PublishFetch(s, id), s.callers[id];
    assert t.fetches[..|t.fetches| - 1] == s.fetches;
    forall key ensures Successes(t.fetches, key) == if EntryAt(t, key).loaded then 1 else 0 {
      assert Succeeded(t.fetches[|t.fetches| - 1], key) <==> key == c.key && c.place.result.Fetched?;
    }
    forall k | k in t.callers ensures CallerOnce(t, t.callers[k]) {
      if k != id {
        assert t.callers[k] == s.callers[k] && CallerOnce(s, s.callers[k]);
        assert IsFetching(s.callers[k]) ==> s.callers[k].key != c.key;
      }
      assert !EntryAt(s, c.key).loaded by { assert CallerOnce(s, c); }
    }
  }

  /** A step that caches nothing and moves at most one caller. */
  lemma QuietKeepsOnce(s: State, t: State, id: nat)
    requires OnceInv(s) && t.fetches == s.fetches
    requires forall key :: EntryAt(t, key).loaded == EntryAt(s, key).loaded && EntryAt(t, key).skills == EntryAt(s, key).skills
    requires forall k :: k in t.callers && k != id ==> k in s.callers && t.callers[k] == s.callers[k]
    requires id in t.callers ==> CallerOnce(s, t.callers[id])
    ensures OnceInv(t)
  {
    hide Successes;
    forall k | k in t.callers ensures CallerOnce(t, t.callers[k]) {
      if k != id { assert CallerOnce(s, s.callers[k]); }
    }
  }

  lemma CheckKeepsOnce(s: State, id: nat)
    requires OnceInv(s) && Enabled(s, Check(id))
    ensures OnceInv(CheckCache(s, id, None))
  {
    hide OnceInv;
    QuietKeepsOnce(s, CheckCache(s, id, None), id);
  }

  lemma StepKeepsOnce(s: State, step: Step)
    requires Inv(s) && OnceInv(s) && Enabled(s, step)
    ensures OnceInv(Apply(s, step, None))
  {
    if step.Publish? {
      PublishKeepsOnce(s, step.id);
    } else if step.Check? {
      CheckKeepsOnce(s, step.id);
    } else {
      StepElsewhere(s, step, None);
      hide Inv, Successes, Apply;
      var id := StepId(step);
      if id in s.callers { assert CallerOnce(s, s.callers[id]); }
      QuietKeepsOnce(s, Apply(s, step, None), id);
    }
  }

  lemma {:induction false} LeadsKeepsOnce(s: State, steps: seq<Step>, t: State)
    requires Inv(s) && OnceInv(s) && Leads(s, steps, None, t)
    ensures OnceInv(t)
    decreases steps
  {
    if steps != [] {
      StepKeepsInv(s, steps[0], None);
      StepKeepsOnce(s, steps[0]);
      LeadsKeepsOnce(Apply(s, steps[0], None), steps[1..], t);
    }
  }

  lemma {:induction false} LeadsKeepsResults(s: State, steps: seq<Step>, interval: Option<int>, t: State)
    requires Inv(s) && ResultInv(s) && Leads(s, steps, interval, t)
    ensures ResultInv(t)
    decreases steps
  {
    if steps != [] {
      StepKeepsInv(s, steps[0], interval);
      StepKeepsResults(s, steps[0], interval);
      LeadsKeepsResults(Apply(s, steps[0], interval), steps[1..], interval, t);
    }
  }

  /** Without a refresh interval each key is fetched successfully at most once, and any two
      calls on a key that succeed return the same list. */
  lemma FetchedOnce(steps: seq<Step>, t: State)
    requires Leads(Initial, steps, None, t)
    ensures forall key :: Successes(t.fetches, key) <= 1
    ensures forall a, b ::
      (a in t.callers && b in t.callers && t.callers[a].key == t.callers[b].key
       && ReturnedSkills(t.callers[a]) && ReturnedSkills(t.callers[b]))
      ==> t.callers[a].place.outcome == t.callers[b].place.outcome
  {
    LeadsKeepsOnce(Initial, steps, t);
  }

  /** With any interval, a call that succeeds returns what some fetch of its own key delivered. */
  lemma NothingInvented(steps: seq<Step>, interval: Option<int>, t: State, id: nat)
    requires Leads(Initial, steps, interval, t)
    requires id in t.callers && ReturnedSkills(t.callers[id])
    ensures Delivered(t, t.callers[id].key, t.callers[id].place.outcome.skills)
  {
    LeadsKeepsResults(Initial, steps, interval, t);
  }

  // ---------------------------------------------------------------- expiry

  /** A key is only fetched again when what is cached for it has expired. */
  ghost predicate ExpiryInv(s: State, interval: Option<int>) {
    && (forall key :: EntryAt(s, key).loaded ==> EntryAt(s, key).refreshed <= s.clock)
    && (forall id :: id in s.callers && IsFetching(s.callers[id]) ==>
          !IsFresh(EntryAt(s, s.callers[id].key), interval, s.clock))
    && (forall f :: f in s.fetches && f.result.Fetched? ==>
          EntryAt(s, f.key).loaded && f.ended <= EntryAt(s, f.key).refreshed)
    && Spaced(s.fetches, interval)
  }

  /** Two successful fetches of one key end at least the refresh interval apart. */
  ghost predicate Spaced(fetches: seq<Fetch>, interval: Option<int>) {
    forall i, j :: 0 <= i < j < |fetches| && Succeeded(fetches[i], fetches[j].key) && fetches[j].result.Fetched? ==>
      interval.Some? && fetches[j].ended - fetches[i].ended >= interval.value
  }

  lemma PublishKeepsExpiry(s: State, id: nat, interval: Option<int>)
    requires Inv(s) && ExpiryInv(s, interval) && Enabled(s, Publish(id))
    ensures ExpiryInv(PublishFetch(s, id), interval)
  {
    var t, c := PublishFetch(s, id), s.callers[id];
    assert forall i :: 0 <= i < |s.fetches| ==> s.fetches[i] in s.fetches;
    assert !IsFresh(EntryAt(s, c.key), interval, s.clock);
    forall key ensures EntryAt(t, key).loaded ==> EntryAt(t, key).refreshed <= t.clock {
      assert key != c.key ==> EntryAt(t, key) == EntryAt(s, key);
    }
    forall k | k in t.callers && IsFetching(t.callers[k]) ensures !IsFresh(EntryAt(t, t.callers[k].key), interval, t.clock) {
      assert k != id && s.callers[k] == t.callers[k];
      assert t.callers[k].key != c.key;
    }
  }

  /** A step that caches nothing, lets time pass or moves one caller, and starts no fetch of
      what is fresh. */
  lemma QuietKeepsExpiry(s: State, t: State, id: nat, interval: Option<int>)
    requires ExpiryInv(s, interval) && t.fetches == s.fetches && s.clock <= t.clock
    requires forall key :: EntryAt(t, key).loaded == EntryAt(s, key).loaded && EntryAt(t, key).refreshed == EntryAt(s, key).refreshed
    requires forall k :: k in t.callers && k != id ==> k in s.callers && t.callers[k] == s.callers[k]
    requires id in t.callers && IsFetching(t.callers[id]) ==> !IsFresh(EntryAt(s, t.callers[id].key), interval, s.clock)
    ensures ExpiryInv(t, interval)
  {
    hide Spaced;
    forall k | k in t.callers && IsFetching(t.callers[k]) ensures !IsFresh(EntryAt(t, t.callers[k].key), interval, t.clock) {
      if k != id { assert IsFetching(s.callers[k]); }
    }
  }

  lemma StepKeepsExpiry(s: State, step: Step, interval: Option<int>)
    requires Inv(s) && ExpiryInv(s, interval) && Enabled(s, step)
    ensures ExpiryInv(Apply(s, step, interval), interval)
  {
    if step.Publish? {
      PublishKeepsExpiry(s, step.id, interval);
    } else if step.Check? {
      CheckStartsExpired(s, step.id, interval);
      hide ExpiryInv, Inv, CheckCache;
      QuietKeepsExpiry(s, CheckCache(s, step.id, interval), step.id, interval);
    } else {
      StepElsewhere(s, step, interval);
      hide Inv, Spaced, Apply;
      QuietKeepsExpiry(s, Apply(s, step, interval), StepId(step), interval);
    }
  }

  lemma CheckStartsExpired(s: State, id: nat, interval: Option<int>)
    requires id in s.callers
    ensures var t := CheckCache(s, id, interval);
      && t.fetches == s.fetches && t.clock == s.clock
      && (forall key :: EntryAt(t, key).loaded == EntryAt(s, key).loaded && EntryAt(t, key).refreshed == EntryAt(s, key).refreshed)
      && (forall k :: k in t.callers && k != id ==> k in s.callers && t.callers[k] == s.callers[k])
      && (id in t.callers && IsFetching(t.callers[id]) ==> !IsFresh(EntryAt(s, t.callers[id].key), interval, s.clock))
  {
  }

  lemma {:induction false} LeadsKeepsExpiry(s: State, steps: seq<Step>, interval: Option<int>, t: State)
    requires Inv(s) && ExpiryInv(s, interval) && Leads(s, steps, interval, t)
    ensures ExpiryInv(t, interval)
    decreases steps
  {
    if steps != [] {
      StepKeepsInv(s, steps[0], interval);
      StepKeepsExpiry(s, steps[0], interval);
      LeadsKeepsExpiry(Apply(s, steps[0], interval), steps[1..], interval, t);
    }
  }

  // ---------------------------------------------------------------- what calls return

  /** The `k`-th ended fetch is the last one that succeeded for the key. */
  ghost predicate IsLastSuccess(fetches: seq<Fetch>, key: string, k: nat) {
    && k < |fetches| && Succeeded(fetches[k], key)
    && forall j :: k < j < |fetches| ==> !Succeeded(fetches[j], key)
  }

  /** The list that a caller of the key must be served: the result of the last successful fetch,
      unless the refresh interval has passed since that ended. */
  ghost predicate MustServe(s: State, key: string, interval: Option<int>, skills: Skills) {
    exists k: nat ::
      && IsLastSuccess(s.fetches, key, k) && s.fetches[k].result == Fetched(skills)
      && (interval.None? || s.clock - s.fetches[k].ended < interval.value)
  }

  function LastSuccess(fetches: seq<Fetch>, key: string): Option<Fetch> {
    if fetches == [] then None
    else if Succeeded(fetches[|fetches| - 1], key) then Some(fetches[|fetches| - 1])
    else LastSuccess(fetches[..|fetches| - 1], key)
  }

  lemma {:induction false} LastSuccessIs(fetches: seq<Fetch>, key: string)
    ensures LastSuccess(fetches, key).None? ==> forall k :: 0 <= k < |fetches| ==> !Succeeded(fetches[k], key)
    ensures LastSuccess(fetches, key).Some? ==>
      exists k: nat :: IsLastSuccess(fetches, key, k) && fetches[k] == LastSuccess(fetches, key).value
  {
    if fetches != [] {
      var n := |fetches| - 1;
      if Succeeded(fetches[n], key) {
        assert IsLastSuccess(fetches, key, n);
      } else {
        LastSuccessIs(fetches[..n], key);
        if LastSuccess(fetches, key).Some? {
          var k: nat :| IsLastSuccess(fetches[..n], key, k) && fetches[..n][k] == LastSuccess(fetches, key).value;
          forall j | k < j < |fetches| ensures !Succeeded(fetches[j], key) {
            if j < n { assert fetches[..n][j] == fetches[j]; }
          }
          assert IsLastSuccess(fetches, key, k);
        }
      }
    }
  }

  /** What is cached for a key is the last success in the log, with the time at which it ended. */
  ghost predicate CachedInv(s: State) {
    forall key :: CachedAt(s, key)
  }

  predicate CachedAt(s: State, key: string) {
    var e, f := EntryAt(s, key), LastSuccess(s.fetches, key);
    if f.None? then !e.loaded else e.loaded && f.value.result == Fetched(e.skills) && f.value.ended == e.refreshed
  }

  lemma StepKeepsCached(s: State, step: Step, interval: Option<int>)
    requires CachedInv(s) && Enabled(s, step)
    ensures CachedInv(Apply(s, step, interval))
  {
    var t := Apply(s, step, interval);
    forall key ensures CachedAt(t, key) {
      assert CachedAt(s, key);
      if step.Publish? {
        assert t.fetches[..|t.fetches| - 1] == s.fetches;
      } else if Elsewhere(step) {
        StepElsewhere(s, step, interval);
        hide Apply;
      }
    }
  }

  lemma {:induction false} LeadsKeepsCached(s: State, steps: seq<Step>, interval: Option<int>, t: State)
    requires CachedInv(s) && Leads(s, steps, interval, t)
    ensures CachedInv(t)
    decreases steps
  {
    if steps != [] {
      StepKeepsCached(s, steps[0], interval);
      LeadsKeepsCached(Apply(s, steps[0], interval), steps[1..], interval, t);
    }
  }

  /** The test at the top of the loop, in terms of the log. */
  lemma FreshIs(s: State, key: string, interval: Option<int>, skills: Skills)
    requires CachedInv(s)
    ensures MustServe(s, key, interval, skills) <==>
      IsFresh(EntryAt(s, key), interval, s.clock) && EntryAt(s, key).skills == skills
  {
    assert CachedAt(s, key);
    LastSuccessIs(s.fetches, key);
    forall j, k: nat | IsLastSuccess(s.fetches, key, j) && IsLastSuccess(s.fetches, key, k) ensures j == k {
    }
    if LastSuccess(s.fetches, key).Some? {
      var k: nat :| IsLastSuccess(s.fetches, key, k) && s.fetches[k] == LastSuccess(s.fetches, key).value;
    }
  }

  /** Some other call is fetching the key, under the given channel. */
  ghost predicate FetchesFor(s: State, key: string, channel: nat) {
    exists c :: Fetches(s, c, key, channel)
  }

  /** What happens at the top of the loop, in every reachable state: a call is served exactly the
      last successful fetch of its key while that is fresh. Otherwise it gives up if cancelled,
      waits for the call that is fetching the key, or fetches the key itself if nobody does. */
  lemma ServedExactly(steps: seq<Step>, interval: Option<int>, s: State, id: nat)
    requires Leads(Initial, steps, interval, s) && Enabled(s, Check(id))
    ensures var c, after := s.callers[id], Apply(s, Check(id), interval).callers[id].place;
      && (forall l :: after == Done(Returned(l)) <==> MustServe(s, c.key, interval, l))
      && ((forall l :: !MustServe(s, c.key, interval, l)) ==>
            && (after == Done(Failed) <==> c.cancelled)
            && (!c.cancelled ==> forall n: nat :: after == Waiting(n) <==> FetchesFor(s, c.key, n))
            && (!c.cancelled ==> (after.Fetching? <==> forall n: nat :: !FetchesFor(s, c.key, n))))
  {
    LeadsKeepsInv(Initial, steps, interval, s);
    LeadsKeepsCached(Initial, steps, interval, s);
    var c := s.callers[id];
    var e := EntryAt(s, c.key);
    forall l ensures MustServe(s, c.key, interval, l) <==> IsFresh(e, interval, s.clock) && e.skills == l {
      FreshIs(s, c.key, interval, l);
    }
    forall n: nat ensures FetchesFor(s, c.key, n) <==> e.loading == Some(n) { MarkIsFetcher(s, c.key, n); }
    CheckGoes(s, id, interval);
    hide Inv, CachedInv, MustServe, IsFresh, FetchesFor, Apply, Leads;
    if IsFresh(e, interval, s.clock) { assert MustServe(s, c.key, interval, e.skills); }
    if e.loading.Some? { assert FetchesFor(s, c.key, e.loading.value); }
  }

  lemma MarkIsFetcher(s: State, key: string, n: nat)
    requires Inv(s)
    ensures FetchesFor(s, key, n) <==> EntryAt(s, key).loading == Some(n)
  {
    if EntryAt(s, key).loading == Some(n) {
      var c :| Fetches(s, c, key, s.entries[key].loading.value);
      assert Fetches(s, c, key, n);
    }
  }

  lemma CheckGoes(s: State, id: nat, interval: Option<int>)
    requires Enabled(s, Check(id))
    ensures var c := s.callers[id];
      var e := EntryAt(s, c.key);
      Apply(s, Check(id), interval).callers[id].place ==
        if IsFresh(e, interval, s.clock) then Done(Returned(e.skills))
        else if c.cancelled then Done(Failed)
        else if e.loading.Some? then Waiting(e.loading.value) else Fetching(s.nextChannel)
  {
  }

  /** With a zero or negative interval nobody is served from the cache. */
  lemma ZeroReloads(steps: seq<Step>, interval: int, s: State, id: nat)
    requires Leads(Initial, steps, Some(interval), s) && Enabled(s, Check(id)) && interval <= 0
    ensures !ReturnedSkills(Apply(s, Check(id), Some(interval)).callers[id])
  {
    ServedExactly(steps, Some(interval), s, id);
    LeadsEndsPast(Initial, steps, Some(interval), s);
    forall l ensures !MustServe(s, s.callers[id].key, Some(interval), l) {
    }
    hide Apply, Leads, MustServe;
  }

  ghost predicate EndedInPast(s: State) {
    forall f :: f in s.fetches ==> f.ended <= s.clock
  }

  lemma {:induction false} LeadsEndsPast(s: State, steps: seq<Step>, interval: Option<int>, t: State)
    requires EndedInPast(s) && Leads(s, steps, interval, t)
    ensures EndedInPast(t)
    decreases steps
  {
    if steps != [] { LeadsEndsPast(Apply(s, steps[0], interval), steps[1..], interval, t); }
  }

  /** How every call ends. It returns a list if it is served from the cache or its own fetch
      delivered that list; it panics if its own fetch did; and it fails if it found the source
      closed, was cancelled where it would have had to wait or fetch, or its own fetch failed. */
  lemma HowCallsEnd(steps: seq<Step>, interval: Option<int>, s: State, step: Step, id: nat, outcome: Outcome)
    requires Leads(Initial, steps, interval, s) && Enabled(s, step)
    requires id in s.callers && !s.callers[id].place.Done?
    ensures var c, after := s.callers[id], Apply(s, step, interval).callers[id].place;
      after == Done(outcome) <==> match outcome
        case Returned(l) =>
          || (step == Check(id) && MustServe(s, c.key, interval, l))
          || (step == Publish(id) && c.place.result == Fetched(l))
        case Panicked => step == Publish(id) && c.place.result.FetchPanicked?
        case Failed =>
          || (step == Enter(id) && s.sourceClosed)
          || (step == Check(id) && c.cancelled && forall l :: !MustServe(s, c.key, interval, l))
          || (step == Abandon(id) && c.cancelled)
          || (step == Publish(id) && c.place.result.FetchFailed?)
  {
    if step == Check(id) {
      ServedExactly(steps, interval, s, id);
      hide MustServe, Leads;
    } else {
      hide MustServe, Leads;
    }
  }

  /** Whatever the callers do, successful fetches of one key end at least the refresh interval
      apart, and no caller fetches what the last one still serves. */
  lemma RefreshesAreSpaced(steps: seq<Step>, interval: Option<int>, t: State)
    requires Leads(Initial, steps, interval, t)
    ensures Spaced(t.fetches, interval)
    ensures forall id, l :: id in t.callers && IsFetching(t.callers[id]) ==> !MustServe(t, t.callers[id].key, interval, l)
  {
    LeadsKeepsExpiry(Initial, steps, interval, t);
    LeadsKeepsCached(Initial, steps, interval, t);
    hide MustServe, IsFresh, CachedInv, Spaced, Leads;
    forall id, l | id in t.callers && IsFetching(t.callers[id]) ensures !MustServe(t, t.callers[id].key, interval, l) {
      FreshIs(t, t.callers[id].key, interval, l);
    }
  }

  // ---------------------------------------------------------------- progress

  predicate OwnStep(step: Step, id: nat) {
    (step.Enter? || step.LockLoop? || step.Check? || step.Wake? || step.SourceReturns? || step.LockPublish? || step.Publish?)
    && step.id == id
  }

  /** No deadlock: while a call has not returned, some call can take its next step. */
  lemma NeverStuck(steps: seq<Step>, interval: Option<int>, t: State, id: nat) returns (next: Step)
    requires Leads(Initial, steps, interval, t)
    requires id in t.callers && !t.callers[id].place.Done?
    ensures Enabled(t, next) && exists c :: c in t.callers && !t.callers[c].place.Done? && OwnStep(next, c)
  {
    LeadsKeepsInv(Initial, steps, interval, t);
    if t.lock.Some? {
      next := LockedStep(t, t.lock.value);
    } else {
      var c := id;
      if t.callers[c].place.Waiting? && t.callers[c].place.channel !in t.closed {
        var key := t.callers[c].key;
        c :| Fetches(t, c, key, t.entries[key].loading.value);
      }
      next := FreeStep(t, c);
    }
  }

  lemma LockedStep(t: State, c: nat) returns (next: Step)
    requires Inv(t) && c in t.callers && HoldsLock(t.callers[c])
    ensures Enabled(t, next) && OwnStep(next, c)
  {
    next := if t.callers[c].place.Checking? then Check(c) else Publish(c);
  }

  lemma FreeStep(t: State, c: nat) returns (next: Step)
    requires Inv(t) && t.lock.None? && c in t.callers && !t.callers[c].place.Done?
    requires t.callers[c].place.Waiting? ==> t.callers[c].place.channel in t.closed
    ensures Enabled(t, next) && OwnStep(next, c)
  {
    match t.callers[c].place
    case Entering => next := Enter(c);
    case AtLoop => next := LockLoop(c);
    case Waiting(_) => next := Wake(c);
    case Fetching(_) => next := SourceReturns(c, FetchFailed);
    case Unwinding(_, _) => next := LockPublish(c);
    case _ => assert false;
  }
}
