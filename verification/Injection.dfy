/** Messages queued for a running conversation, and the loop that hands them to the provider. */
module Injection {
  import opened Messages
  import opened Contents
  import opened CoalesceAll
  import opened Responses
  import opened Usage

  /** What happens during one provider call. Enqueuing may happen between any two updates. */
  datatype Event = Yields(update: Update) | Enqueues(batch: seq<Option<Message>>) | Fails(error: string)

  /** What the caller of a run receives. `resets` marks the start of another structured output. */
  datatype Item = Emit(update: Update, resets: bool) | Broken(error: string)

  /** How a run ends; `Open` is a run whose last call has not reported anything yet. */
  datatype Ending = Completed | Failed(error: string) | Stopped | Open

  const NO_SESSION := "agent: message injection requires a session"
  const EmptyUpdate := Update("", "", "", None, "", "", NO_ROLE, "", [])

  function NonNil(batch: seq<Option<Message>>): seq<Message> {
    if batch == [] then []
    else NonNil(batch[..|batch| - 1]) + if batch[|batch| - 1].Some? then [batch[|batch| - 1].value] else []
  }

  function EnqueuedBy(e: Event): seq<Message> { if e.Enqueues? then NonNil(e.batch) else [] }

  function YieldedBy(e: Event): seq<Update> { if e.Yields? then [e.update] else [] }

  function ShownFor(e: Event): seq<Item> {
    match e
    case Yields(u) => [Emit(u, false)]
    case Fails(x) => [Broken(x)]
    case Enqueues(_) => []
  }

  function Enqueued(events: seq<Event>): seq<Message> {
    if events == [] then [] else Enqueued(events[..|events| - 1]) + EnqueuedBy(events[|events| - 1])
  }

  function Yielded(events: seq<Event>): seq<Update> {
    if events == [] then [] else Yielded(events[..|events| - 1]) + YieldedBy(events[|events| - 1])
  }

  function Shown(events: seq<Event>): seq<Item> {
    if events == [] then [] else Shown(events[..|events| - 1]) + ShownFor(events[|events| - 1])
  }

  /** Nothing failed. */
  ghost predicate Clean(events: seq<Event>) {
    forall e :: e in events ==> !e.Fails?
  }

  /** A function call that somebody has to act on. */
  predicate IsActionable(c: Content) {
    c.FunctionCall? && !c.informationalOnly
  }

  predicate HasActionable(contents: seq<Content>) {
    exists c :: c in contents && IsActionable(c)
  }

  predicate Actionable(events: seq<Event>) {
    HasActionable(Streamed(Yielded(events)))
  }

  function Flat<T>(lists: seq<seq<T>>): seq<T> {
    if lists == [] then [] else Flat(lists[..|lists| - 1]) + lists[|lists| - 1]
  }

  function EnqueuedInAll(rounds: seq<seq<Event>>): seq<Message> {
    if rounds == [] then [] else EnqueuedInAll(rounds[..|rounds| - 1]) + Enqueued(rounds[|rounds| - 1])
  }

  function UsagesOf(us: seq<Update>): seq<UsageDetails> { Gather(Streamed(us), UsageOf) }

  function UsagesInAll(rounds: seq<seq<Event>>): seq<UsageDetails> {
    if rounds == [] then [] else UsagesInAll(rounds[..|rounds| - 1]) + UsagesOf(Yielded(rounds[|rounds| - 1]))
  }

  function Marked(items: seq<Item>, reset: bool): seq<Item> {
    if reset && items != [] && items[0].Emit? then [Emit(items[0].update, true)] + items[1..] else items
  }

  /** What one call contributes to a stream: its updates, the first one marked where the output
      starts again, or a mark alone when there is none. */
  function RoundOut(events: seq<Event>, reset: bool, whole: bool): seq<Item> {
    Marked(Shown(events), reset) + if whole && reset && Yielded(events) == [] then [Emit(EmptyUpdate, true)] else []
  }

  function StreamOut(rounds: seq<seq<Event>>, structured: bool, whole: bool): seq<Item> {
    if rounds == [] then []
    else
      var n := |rounds| - 1;
      StreamOut(rounds[..n], structured, true) + RoundOut(rounds[n], structured && n > 0, whole)
  }

  function Emits(us: seq<Update>): seq<Item> {
    seq(|us|, i requires 0 <= i < |us| => Emit(us[i], false))
  }

  /** The contents with one usage item more at the end of the last message. */
  function WithUsage(g: Gathered, usage: UsageDetails): Gathered {
    var messages := if g.messages == [] then [NewReply] else g.messages;
    var last := messages[|messages| - 1];
    g.(messages := messages[..|messages| - 1]
                   + [last.(contents := last.contents + [Content.Usage(Header(None, None), usage)])])
  }

  /** The updates of the last response, with the usage of earlier calls if there is any. */
  function Final(us: seq<Update>, prior: UsageDetails, hasPrior: bool): seq<Update> {
    var g := FoldAll(Empty, us);
    UpdatesOf(CoalesceReplies(if hasPrior then WithUsage(g, prior) else g))
  }

  /** The answer of a run that does not stream. */
  function Answer(us: seq<Update>, earlier: seq<UsageDetails>): seq<Update> {
    Final(us, Total(earlier), earlier != [])
  }

  // ---------------------------------------------------------------- what the readings are

  /** Some update brought a function call that is not there for information only. */
  ghost predicate Asks(events: seq<Event>) {
    exists i: nat :: i < |events| && AsksAt(events, i)
  }

  lemma {:induction false} ActionableIff(events: seq<Event>)
    ensures Actionable(events) <==> Asks(events)
  {
    hide *;
    if events == [] {
      AsksNothing();
    } else {
      var n := |events| - 1;
      assert events == events[..n] + [events[n]];
      ActionableIff(events[..n]);
      EventStep(events[..n], events[n]);
      AsksStep(events[..n], events[n]);
    }
  }

  lemma AsksNothing()
    ensures !Asks([]) && !Actionable([])
  {
    NothingPlayed();
  }

  /** The `i`-th event brings a call that somebody has to act on. */
  ghost predicate AsksAt(events: seq<Event>, i: nat)
    requires i < |events|
  {
    events[i].Yields? && exists c :: c in events[i].update.contents && c.FunctionCall? && !c.informationalOnly
  }

  lemma AsksStep(before: seq<Event>, e: Event)
    ensures Asks(before + [e]) <==> Asks(before) || (e.Yields? && HasActionable(e.update.contents))
  {
    var all, n := before + [e], |before|;
    assert AsksAt(all, n) <==> e.Yields? && HasActionable(e.update.contents) by {
      if AsksAt(all, n) {
        var c :| c in e.update.contents && c.FunctionCall? && !c.informationalOnly;
        assert IsActionable(c);
      }
    }
    hide HasActionable;
    forall i: nat | i < n ensures AsksAt(all, i) <==> AsksAt(before, i) { assert all[i] == before[i]; }
    hide AsksAt;
    if Asks(all) {
      var i: nat :| i < |all| && AsksAt(all, i);
      if i < n { assert AsksAt(before, i); }
    }
    if Asks(before) {
      var i: nat :| i < n && AsksAt(before, i);
      assert AsksAt(all, i);
    }
  }

  /** How a call ends that neither fails nor is stopped. If it asked for a function the run is
      complete and nothing is taken from the queue. If it did not, the whole queue is taken, the run
      goes on if and only if that was not empty, and otherwise exactly what comes late stays. */
  lemma CallDecides(events: seq<Event>, played: seq<Event>, queued: seq<Message>, injected: seq<Message>, pending: seq<Message>,
                    late: seq<Message>, ending: Option<Ending>)
    requires PlaysCall(events, played, injected, ending) && (ending.None? || ending == Some(Completed))
    requires TakesQueue(queued, played, injected, pending, late, ending)
    ensures played == events
    ensures Asks(events) ==> ending == Some(Completed) && injected == [] && pending == queued + Enqueued(events) + late
    ensures !Asks(events) ==>
      && (ending.None? <==> queued + Enqueued(events) != [])
      && (ending.None? ==> injected == queued + Enqueued(events) && pending == [])
      && (ending.Some? ==> pending == late)
  {
    ActionableIff(events);
    hide Actionable, Enqueued, Asks, Clean;
    assert ending.Some? ==> injected + pending == pending;
    assert pending == [] ==> injected + pending == injected;
    if ending.Some? && pending == late { EmptyBefore(queued + Enqueued(events), late); }
  }

  lemma EmptyBefore<T>(a: seq<T>, b: seq<T>)
    ensures a + b == b ==> a == []
  {
    assert |a + b| == |a| + |b|;
  }

  /** Queued messages, old and new, come before new ones, whatever is not there is passed over. */
  lemma {:induction false} NonNilAround(a: seq<Option<Message>>, m: Option<Message>, b: seq<Option<Message>>)
    ensures NonNil(a + [m] + b) == NonNil(a) + (if m.Some? then [m.value] else []) + NonNil(b)
    ensures NonNil([]) == []
  {
    var all := a + [m] + b;
    if b == [] {
      assert all[..|all| - 1] == a && all[|all| - 1] == m;
    } else {
      var n := |b| - 1;
      assert all[..|all| - 1] == a + [m] + b[..n] && all[|all| - 1] == b[n];
      NonNilAround(a, m, b[..n]);
    }
  }

  /** How many events the consumer of a stream hears of. */
  function Heard(events: seq<Event>): nat {
    if events == [] then 0 else Heard(events[..|events| - 1]) + if events[|events| - 1].Enqueues? then 0 else 1
  }

  /** Every update and every failure is shown, in its place. */
  lemma {:induction false} ShownAt(events: seq<Event>, i: nat)
    requires i < |events| && !events[i].Enqueues?
    ensures |Shown(events)| == Heard(events) && Heard(events[..i]) < Heard(events)
    ensures Shown(events)[Heard(events[..i])] == match events[i]
      case Yields(u) => Emit(u, false)
      case Fails(x) => Broken(x)
    decreases |events|
  {
    var n := |events| - 1;
    ShownLength(events);
    ShownLength(events[..n]);
    if i < n {
      ShownAt(events[..n], i);
      assert events[..n][..i] == events[..i];
    }
  }

  lemma {:induction false} ShownLength(events: seq<Event>)
    ensures |Shown(events)| == Heard(events)
  {
    if events != [] { ShownLength(events[..|events| - 1]); }
  }

  // ---------------------------------------------------------------- what a stream shows

  function ShownInAll(rounds: seq<seq<Event>>): seq<Item> {
    if rounds == [] then [] else ShownInAll(rounds[..|rounds| - 1]) + Shown(rounds[|rounds| - 1])
  }

  function Resets(items: seq<Item>): nat {
    if items == [] then 0
    else Resets(items[..|items| - 1]) + if items[|items| - 1].Emit? && items[|items| - 1].resets then 1 else 0
  }

  /** What a consumer learns from some items, marks apart: the updates that say something, and
      the failures. */
  function Substance(items: seq<Item>): seq<Item> {
    if items == [] then [] else Substance(items[..|items| - 1]) + SubstanceOf(items[|items| - 1])
  }

  function SubstanceOf(item: Item): seq<Item> {
    match item
    case Broken(_) => [item]
    case Emit(u, _) => if u == EmptyUpdate then [] else [Emit(u, false)]
  }

  lemma SubstanceStep(items: seq<Item>)
    requires items != []
    ensures var n := |items| - 1; Substance(items) == Substance(items[..n]) + SubstanceOf(items[n])
  {
  }

  lemma {:induction false} SubstanceConcat(a: seq<Item>, b: seq<Item>)
    ensures Substance(a + b) == Substance(a) + Substance(b)
  {
    hide *;
    if b == [] {
      SubstanceNone();
      assert a + b == a && Substance(a) + [] == Substance(a);
    } else {
      var n := |b| - 1;
      SubstanceConcat(a, b[..n]);
      SubstanceStep(a + b);
      SubstanceStep(b);
      assert (a + b)[..|a + b| - 1] == a + b[..n] && (a + b)[|a + b| - 1] == b[n];
    }
  }

  lemma SubstanceNone()
    ensures Substance([]) == []
  {
  }

  lemma OnlySubstance(item: Item)
    ensures Substance([item]) == SubstanceOf(item)
  {
    assert [item][..0] == [];
  }

  /** Marking a call adds nothing to what is learnt from it. */
  lemma RoundShowsAll(events: seq<Event>, reset: bool, whole: bool)
    ensures Substance(RoundOut(events, reset, whole)) == Substance(Shown(events))
    ensures !reset ==> RoundOut(events, reset, whole) == Shown(events)
  {
    var items := Shown(events);
    var lone: seq<Item> := if whole && reset && Yielded(events) == [] then [Emit(EmptyUpdate, true)] else [];
    assert RoundOut(events, reset, whole) == Marked(items, reset) + lone;
    OnlySubstance(Emit(EmptyUpdate, true));
    hide Substance, Shown, RoundOut, Yielded;
    SubstanceConcat(Marked(items, reset), lone);
    MarkedSubstance(items, reset);
  }

  lemma MarkedSubstance(items: seq<Item>, reset: bool)
    ensures Substance(Marked(items, reset)) == Substance(items)
  {
    hide Substance;
    if reset && items != [] && items[0].Emit? {
      var u := items[0].update;
      OnlySubstance(Emit(u, true));
      OnlySubstance(items[0]);
      SubstanceConcat([Emit(u, true)], items[1..]);
      SubstanceConcat([items[0]], items[1..]);
      assert items == [items[0]] + items[1..];
    }
  }

  /** A stream shows what the calls yield, in order, and nothing else but marks; without
      structured output there are none. */
  lemma {:induction false} StreamShowsAll(rounds: seq<seq<Event>>, structured: bool, whole: bool)
    ensures Substance(StreamOut(rounds, structured, whole)) == Substance(ShownInAll(rounds))
    ensures !structured ==> StreamOut(rounds, structured, whole) == ShownInAll(rounds)
  {
    if rounds != [] {
      var n := |rounds| - 1;
      StreamShowsAll(rounds[..n], structured, true);
      RoundShowsAll(rounds[n], structured && n > 0, whole);
      hide Substance, RoundOut, Shown;
      SubstanceConcat(StreamOut(rounds[..n], structured, true), RoundOut(rounds[n], structured && n > 0, whole));
      SubstanceConcat(ShownInAll(rounds[..n]), Shown(rounds[n]));
    }
  }

  lemma {:induction false} ResetsConcat(a: seq<Item>, b: seq<Item>)
    ensures Resets(a + b) == Resets(a) + Resets(b)
  {
    if b == [] {
      assert a + b == a;
    } else {
      ResetsConcat(a, b[..|b| - 1]);
      assert (a + b)[..|a + b| - 1] == a + b[..|b| - 1];
    }
  }

  /** What is shown of a call that did not fail: updates only, none of them marked. */
  lemma {:induction false} ShownPlain(events: seq<Event>)
    requires Clean(events)
    ensures Resets(Shown(events)) == 0 && (Shown(events) == [] <==> Yielded(events) == [])
    ensures Shown(events) != [] ==> Shown(events)[0].Emit? && !Shown(events)[0].resets
  {
    hide *;
    NothingPlayed();
    NoResets();
    if events != [] {
      var n := |events| - 1;
      assert events == events[..n] + [events[n]];
      CleanStep(events);
      ShownPlain(events[..n]);
      ShownPlainStep(events[..n], events[n]);
    }
  }

  lemma CleanStep(events: seq<Event>)
    requires events != [] && Clean(events)
    ensures var n := |events| - 1; Clean(events[..n]) && !events[n].Fails?
  {
  }

  lemma NoResets()
    ensures Resets([]) == 0
  {
  }

  lemma ShownPlainStep(before: seq<Event>, e: Event)
    requires !e.Fails? && Resets(Shown(before)) == 0 && (Shown(before) == [] <==> Yielded(before) == [])
    requires Shown(before) != [] ==> Shown(before)[0].Emit? && !Shown(before)[0].resets
    ensures var all := before + [e];
      && Resets(Shown(all)) == 0 && (Shown(all) == [] <==> Yielded(all) == [])
      && (Shown(all) != [] ==> Shown(all)[0].Emit? && !Shown(all)[0].resets)
  {
    EventStep(before, e);
    hide Shown, Yielded, Resets;
    if e.Yields? {
      ResetsConcat(Shown(before), [Emit(e.update, false)]);
      OnlyItem(Emit(e.update, false));
    }
  }

  /** The mark stands at the first thing shown of a call, or alone where nothing is shown. */
  lemma MarkComesFirst(events: seq<Event>)
    requires Clean(events)
    ensures var out, items := RoundOut(events, true, true), Shown(events);
      if items == [] then out == [Emit(EmptyUpdate, true)]
      else |out| == |items| && items[0].Emit? && out[0] == Emit(items[0].update, true) && forall i :: 0 < i < |out| ==> out[i] == items[i]
  {
    ShownPlain(events);
    hide Shown, Yielded;
  }

  lemma OneReset(events: seq<Event>)
    requires Clean(events)
    ensures Resets(RoundOut(events, true, true)) == 1
  {
    ShownPlain(events);
    var items := Shown(events);
    if items == [] {
      OnlyItem(Emit(EmptyUpdate, true));
      assert RoundOut(events, true, true) == [Emit(EmptyUpdate, true)];
    } else {
      var mark := Emit(items[0].update, true);
      assert RoundOut(events, true, true) == [mark] + items[1..];
      hide RoundOut, Shown, Yielded, Resets;
      assert items == [items[0]] + items[1..];
      ResetsConcat([items[0]], items[1..]);
      ResetsConcat([mark], items[1..]);
      OnlyItem(mark);
      OnlyItem(items[0]);
    }
  }

  lemma OnlyItem(item: Item)
    ensures Resets([item]) == if item.Emit? && item.resets then 1 else 0
  {
    assert [item][..0] == [];
  }

  /** With structured output every call after the first is announced by exactly one mark. */
  lemma {:induction false} OneResetPerFurtherCall(rounds: seq<seq<Event>>)
    requires rounds != [] && forall i :: 0 <= i < |rounds| ==> Clean(rounds[i])
    ensures Resets(StreamOut(rounds, true, true)) == |rounds| - 1
  {
    var n := |rounds| - 1;
    assert RoundOut(rounds[0], false, true) == Shown(rounds[0]);
    hide RoundOut;
    ResetsConcat(StreamOut(rounds[..n], true, true), RoundOut(rounds[n], n > 0, true));
    if n > 0 {
      OneResetPerFurtherCall(rounds[..n]);
      OneReset(rounds[n]);
    } else {
      ShownPlain(rounds[0]);
    }
  }

  // ---------------------------------------------------------------- the usage of an answer

  lemma {:induction false} StreamedUpdates(g: Gathered, n: nat)
    requires n <= |g.messages|
    ensures Streamed(MessageUpdates(g, n)) == AllContents(g.messages[..n])
  {
    if n > 0 {
      StreamedUpdates(g, n - 1);
      assert MessageUpdates(g, n)[..n - 1] == MessageUpdates(g, n - 1);
      assert g.messages[..n][..n - 1] == g.messages[..n - 1];
    }
  }

  /** The updates of a response carry its contents. */
  lemma UpdatesCarryContents(g: Gathered)
    ensures Streamed(UpdatesOf(g)) == AllContents(g.messages)
  {
    var us := MessageUpdates(g, |g.messages|);
    StreamedUpdates(g, |g.messages|);
    assert g.messages[..|g.messages|] == g.messages;
    if g.token != "" {
      assert (us + [MetadataUpdate(g)])[..|us|] == us;
    } else {
      assert UpdatesOf(g) == us;
    }
  }

  /** Coalescing every message keeps all usages. */
  lemma {:induction false} UsagesSurvive(v: seq<Reply>, w: seq<Reply>)
    requires |v| == |w| && forall i :: 0 <= i < |v| ==> v[i] == CoalesceReply(w[i])
    ensures Gather(AllContents(v), UsageOf) == Gather(AllContents(w), UsageOf)
  {
    if v != [] {
      hide Coalesce;
      var n := |v| - 1;
      UsagesSurvive(v[..n], w[..n]);
      UsageKept(w[n].contents);
      GatherConcat(AllContents(v[..n]), v[n].contents, UsageOf);
      GatherConcat(AllContents(w[..n]), w[n].contents, UsageOf);
    }
  }

  lemma WithUsageContents(g: Gathered, usage: UsageDetails)
    ensures AllContents(WithUsage(g, usage).messages)
         == AllContents(g.messages) + [Content.Usage(Header(None, None), usage)]
  {
    var m := WithUsage(g, usage).messages;
    if g.messages == [] {
      assert m[..|m| - 1] == [] && AllContents([]) == [];
    } else {
      assert m[..|m| - 1] == g.messages[..|g.messages| - 1];
    }
  }

  /** The usages in an answer: those of the last call, then the total of the earlier ones. */
  lemma AnswerUsages(us: seq<Update>, earlier: seq<UsageDetails>)
    ensures UsagesOf(Answer(us, earlier)) == UsagesOf(us) + if earlier == [] then [] else [Total(earlier)]
  {
    hide FoldAll, Coalesce, UpdatesOf, WithUsage, AllContents, Streamed;
    var g := FoldAll(Empty, us);
    var h := if earlier == [] then g else WithUsage(g, Total(earlier));
    UpdatesCarryContents(CoalesceReplies(h));
    UsagesSurvive(CoalesceReplies(h).messages, h.messages);
    ContentsGathered(us);
    if earlier != [] {
      var item := Content.Usage(Header(None, None), Total(earlier));
      WithUsageContents(g, Total(earlier));
      GatherConcat(AllContents(g.messages), [item], UsageOf);
      GatherOne(item, UsageOf);
    }
  }

  /** The usage an answer reports is the usage of all calls. */
  lemma AnswerTotal(us: seq<Update>, earlier: seq<UsageDetails>)
    ensures Total(UsagesOf(Answer(us, earlier))) == Total(earlier + UsagesOf(us))
  {
    hide Answer;
    AnswerUsages(us, earlier);
    TotalCommutes(UsagesOf(us), earlier);
    if earlier == [] {
      assert earlier + UsagesOf(us) == UsagesOf(us) == UsagesOf(us) + [];
    } else {
      TotalConcat(UsagesOf(us), [Total(earlier)]);
      TotalOne(Total(earlier));
      TotalConcat(UsagesOf(us), earlier);
    }
  }

  /** The message that an answer shows in one place: that of the response of the last call, with the
      total usage of the earlier ones at the end of the last message. */
  function AnswerMessage(g: Gathered, earlier: seq<UsageDetails>, i: nat): Reply
    requires i < |g.messages| || i == 0
  {
    var m := if i < |g.messages| then g.messages[i] else Reply(Assistant, "", "", []);
    if earlier != [] && i + 1 >= |g.messages| then
      m.(contents := m.contents + [Content.Usage(Header(None, None), Total(earlier))])
    else m
  }

  /** Update by update, what a run without streaming yields: the coalesced messages of the last call
      with the fields of its response, and a token on its own at the end. */
  lemma AnswerExactly(us: seq<Update>, earlier: seq<UsageDetails>)
    ensures var g, a := FoldAll(Empty, us), Answer(us, earlier);
      var n := if g.messages == [] && earlier != [] then 1 else |g.messages|;
      && |a| == n + (if g.token == "" then 0 else 1)
      && (forall i: nat :: i < n ==>
            var m := AnswerMessage(g, earlier, i);
            a[i] == Update(g.agentId, m.id, g.id, g.conversationId, g.finishReason, m.author, m.role, "", Coalesce(m.contents)))
      && (g.token != "" ==> a[n] == Update(g.agentId, "", g.id, g.conversationId, "", "", NO_ROLE, g.token, []))
  {
    hide FoldAll, Coalesce, Total;
    var g := FoldAll(Empty, us);
    var h := if earlier != [] then WithUsage(g, Total(earlier)) else g;
    assert Answer(us, earlier) == UpdatesOf(CoalesceReplies(h));
  }

  // ---------------------------------------------------------------- the session and the consumer

  /** The part of a session that the injector uses. */
  class Session {
    var pending: seq<Message>

    constructor ()
      ensures pending == []
    {
      pending := [];
    }
  }

  /** A consumer that may stop at any item. It must not be called again once it has. */
  class Consumer {
    const accepts: seq<Item> -> bool
    var received: seq<Item>
    var stopped: bool

    constructor (accepts: seq<Item> -> bool)
      ensures received == [] && !stopped && this.accepts == accepts
    {
      this.accepts := accepts;
      received, stopped := [], false;
    }

    method Yield(item: Item) returns (more: bool)
      requires !stopped
      modifies this
      ensures received == old(received) + [item] && stopped == !more
    {
      received := received + [item];
      more := accepts(received);
      stopped := !more;
    }

    /** Yields updates until they end or the consumer stops. */
    method YieldAll(us: seq<Update>) returns (more: bool)
      requires !stopped
      modifies this
      ensures stopped == !more && old(received) <= received <= old(received) + Emits(us)
      ensures more ==> received == old(received) + Emits(us)
    {
      for i := 0 to |us|
        invariant !stopped && received == old(received) + Emits(us[..i])
      {
        assert Emits(us[..i + 1]) == Emits(us[..i]) + [Emit(us[i], false)];
        assert Emits(us) == Emits(us[..i + 1]) + Emits(us[i + 1..]);
        var ok := Yield(Emit(us[i], false));
        if !ok { return false; }
      }
      assert us[..|us|] == us;
      return true;
    }
  }

  class MessageInjector {
    constructor () {}

    /** Queues the messages that are not nil. */
    method EnqueueMessages(session: Session?, batch: seq<Option<Message>>) returns (error: Option<string>)
      modifies session
      ensures error == if session == null then Some(NO_SESSION) else None
      ensures session != null ==> session.pending == old(session.pending) + NonNil(batch)
    {
      if session == null { return Some(NO_SESSION); }
      for i := 0 to |batch|
        invariant session.pending == old(session.pending) + NonNil(batch[..i])
      {
        assert batch[..i + 1][..i] == batch[..i];
        if batch[i].Some? { session.pending := session.pending + [batch[i].value]; }
      }
      assert batch[..|batch|] == batch;
      return None;
    }

    /** Takes everything that is queued. */
    method Drain(session: Session) returns (messages: seq<Message>)
      modifies session
      ensures messages == old(session.pending) && session.pending == []
    {
      messages := session.pending;
      session.pending := [];
    }

    method DrainInto(session: Session, messages: seq<Message>) returns (all: seq<Message>)
      modifies session
      ensures all == messages + old(session.pending) && session.pending == []
    {
      var injected := Drain(session);
      if |injected| == 0 { return messages; }
      return messages + injected;
    }

    /** One event of a provider call. */
    method PlayEvent(session: Session, e: Event, stream: bool, reset: bool, response: Response, consumer: Consumer)
      returns (actionable: bool, resetLeft: bool, ending: Option<Ending>)
      requires !consumer.stopped
      modifies session, response, consumer
      ensures Books(session.pending, consumer.received, response.View())
           == BooksAfter(e, stream, reset, old(Books(session.pending, consumer.received, response.View())))
      ensures actionable == (e.Yields? && HasActionable(e.update.contents)) && resetLeft == (reset && !e.Yields?)
      ensures match e
        case Enqueues(_) => ending.None? && !consumer.stopped
        case Yields(_) => (stream || !consumer.stopped) && ending == if consumer.stopped then Some(Stopped) else None
        case Fails(x) => ending == Some(Failed(x))
    {
      actionable, resetLeft, ending := false, reset, None;
      match e {
        case Enqueues(batch) =>
          var _ := EnqueueMessages(session, batch);
        case Yields(u) =>
          if HasActionable(u.contents) { actionable := true; }
          resetLeft := false;
          if stream {
            var more := consumer.Yield(Emit(u, reset));
            if !more { ending := Some(Stopped); }
          } else {
            response.Update(u);
          }
        case Fails(x) =>
          var _ := consumer.Yield(Broken(x));
          ending := Some(Failed(x));
      }
    }

    /** One provider call: a prefix of its events is played, all of them unless it fails or the
        consumer stops. */
    method PlayCall(session: Session, events: seq<Event>, stream: bool, reset: bool, response: Response, consumer: Consumer)
      returns (played: seq<Event>, actionable: bool, resetLeft: bool, ending: Option<Ending>)
      requires !consumer.stopped
      modifies session, response, consumer
      ensures PlayedCall(events, played, stream, reset, old(Books(session.pending, consumer.received, response.View())),
                         Books(session.pending, consumer.received, response.View()), actionable, resetLeft, ending)
      ensures consumer.stopped ==> ending.Some?
    {
      ghost var start := Books(session.pending, consumer.received, response.View());
      played, actionable, resetLeft, ending := [], false, reset, None;
      NothingKept(stream, reset, start);
      hide *;
      for i := 0 to |events|
        invariant played == events[..i] && !consumer.stopped
        invariant KeepsBooks(played, stream, reset, start, Books(session.pending, consumer.received, response.View()), actionable, resetLeft)
      {
        ghost var before, now, a0, r0 := played, Books(session.pending, consumer.received, response.View()), actionable, resetLeft;
        assert events[..i + 1] == events[..i] + [events[i]];
        played := played + [events[i]];
        var act, left, over := PlayEvent(session, events[i], stream, resetLeft, response, consumer);
        actionable, resetLeft := actionable || act, left;
        KeptEvent(events, before, events[i], stream, reset, start, now, a0, r0, over);
        if over.Some? {
          ending := over;
          return;
        }
      }
      KeptToTheEnd(events, played, stream, reset, start, Books(session.pending, consumer.received, response.View()), actionable, resetLeft);
    }

    /** Adds up the usages among some contents. */
    method AddUsages(contents: seq<Content>, prior: UsageDetails, found: bool) returns (sum: UsageDetails, any: bool)
      ensures sum == Add(prior, Total(Gather(contents, UsageOf)))
      ensures any == (found || Gather(contents, UsageOf) != [])
    {
      sum, any := prior, found;
      NothingMore(prior);
      hide Add, Total, Gather, AllContents;
      for i := 0 to |contents|
        invariant sum == Add(prior, Total(Gather(contents[..i], UsageOf)))
        invariant any == (found || Gather(contents[..i], UsageOf) != [])
      {
        GatherLast(contents, i);
        if contents[i].Usage? {
          OneMore(prior, Gather(contents[..i], UsageOf), contents[i].details);
          sum := Accumulate(sum, contents[i].details);
          any := true;
        }
      }
      assert contents[..|contents|] == contents;
    }

    /** Adds up the usages of a response that is not the last one. */
    method AddResponse(response: Response, prior: UsageDetails, found: bool) returns (sum: UsageDetails, any: bool)
      ensures var us := Gather(AllContents(response.messages), UsageOf);
        sum == Add(prior, Total(us)) && any == (found || us != [])
    {
      sum, any := prior, found;
      NothingMore(prior);
      hide Add, Total, Gather, AllContents;
      var messages := response.messages;
      for i := 0 to |messages|
        invariant sum == Add(prior, Total(Gather(AllContents(messages[..i]), UsageOf)))
        invariant any == (found || Gather(AllContents(messages[..i]), UsageOf) != [])
      {
        MessageMore(prior, messages, i);
        sum, any := AddUsages(messages[i].contents, sum, any);
      }
      assert messages[..|messages|] == messages;
    }

    /** Appends the usage of the earlier calls to the last response and yields it. */
    method Finish(response: Response, prior: UsageDetails, hasPrior: bool, consumer: Consumer) returns (ending: Ending)
      requires !consumer.stopped
      modifies response, consumer
      ensures var g := old(response.View());
        var us := UpdatesOf(CoalesceReplies(if hasPrior then WithUsage(g, prior) else g));
        && (ending == Completed || ending == Stopped)
        && old(consumer.received) <= consumer.received <= old(consumer.received) + Emits(us)
        && (ending == Completed ==> consumer.received == old(consumer.received) + Emits(us))
    {
      if hasPrior {
        if |response.messages| == 0 { response.messages := [NewReply]; }
        var n := |response.messages| - 1;
        var last := response.messages[n];
        response.messages := response.messages[n := last.(contents := last.contents + [Content.Usage(Header(None, None), prior)])];
        assert response.View() == WithUsage(old(response.View()), prior);
      }
      response.CoalesceMessages();
      var us := response.ToUpdates();
      var more := consumer.YieldAll(us);
      return if more then Completed else Stopped;
    }

    /** One turn of the loop: a call, and then the end of the run or the messages for the next
        call. `sum` and `any` carry the usage of the calls so far. Where the run ends, `late` is what
        arrives from its last look at the queue on, as while the answer or an error is yielded. */
    method MakeCall(session: Session, events: seq<Event>, stream: bool, reset: bool, prior: UsageDetails, hasPrior: bool,
                    late: seq<Option<Message>>, consumer: Consumer)
      returns (played: seq<Event>, injected: seq<Message>, sum: UsageDetails, any: bool, ending: Option<Ending>)
      requires !consumer.stopped && (reset ==> stream)
      modifies session, consumer
      ensures PlaysCall(events, played, injected, ending) && (ending.None? ==> !consumer.stopped)
      ensures TakesQueue(old(session.pending), played, injected, session.pending, NonNil(late), ending)
      ensures stream ==> consumer.received == old(consumer.received) + RoundOut(played, reset, !Breaks(ending))
      ensures !stream ==> Answers(old(consumer.received), consumer.received, Final(Yielded(played), prior, hasPrior), ending)
      ensures !stream && ending.None? ==>
        var us := UsagesOf(Yielded(played)); sum == Add(prior, Total(us)) && any == (hasPrior || us != [])
    {
      hide Enqueued, Yielded, FoldAll, Fold, HasActionable, Streamed, UpdatesOf, CoalesceReplies, WithUsage, Add, Total, Gather, AllContents;
      hide Marked, Shown;
      NothingPlayed();
      injected, sum, any := [], prior, hasPrior;
      var response := new Response();
      var actionable, resetLeft;
      played, actionable, resetLeft, ending := PlayCall(session, events, stream, reset, response, consumer);
      if ending.Some? {
        var _ := EnqueueMessages(session, late);
        return;
      }
      if resetLeft {
        var more := consumer.Yield(Emit(EmptyUpdate, true));
        if !more {
          var _ := EnqueueMessages(session, late);
          ending := Some(Stopped);
          return;
        }
      }
      if !actionable { injected := Drain(session); }
      if actionable || |injected| == 0 {
        var _ := EnqueueMessages(session, late);
        ending := Some(Completed);
        if !stream {
          var last := Finish(response, prior, hasPrior, consumer);
          ending := Some(last);
        }
        return;
      }
      if !stream {
        ContentsGathered(Yielded(played));
        sum, any := AddResponse(response, prior, hasPrior);
      }
    }

    /** A run over the provider calls of `script`. Besides what the consumer receives it reports
        what each call was given and which of its events took place. `late` is what arrives after
        its last look at the queue. */
    method Run(session: Session?, messages: seq<Message>, stream: bool, structured: bool,
               script: seq<seq<Event>>, late: seq<Option<Message>>, consumer: Consumer)
      returns (calls: seq<seq<Message>>, played: seq<seq<Event>>, ending: Ending)
      requires !consumer.stopped
      modifies session, consumer
      ensures session == null ==>
        calls == [] && ending == Failed(NO_SESSION) && consumer.received == old(consumer.received) + [Broken(NO_SESSION)]
      ensures session != null ==> PlayedUpTo(script, calls, played, ending)
      ensures session != null ==> DeliversAll(messages + old(session.pending), calls, session.pending, played, NonNil(late), ending)
      ensures session != null ==> Receives(old(consumer.received), consumer.received, played, ending, stream, structured)
    {
      if session == null {
        var _ := consumer.Yield(Broken(NO_SESSION));
        return [], [], Failed(NO_SESSION);
      }
      calls, played, ending := RunSession(session, messages, stream, structured, script, late, consumer);
    }

    method RunSession(session: Session, messages: seq<Message>, stream: bool, structured: bool,
                      script: seq<seq<Event>>, late: seq<Option<Message>>, consumer: Consumer)
      returns (calls: seq<seq<Message>>, played: seq<seq<Event>>, ending: Ending)
      requires !consumer.stopped
      modifies session, consumer
      ensures PlayedUpTo(script, calls, played, ending)
      ensures DeliversAll(messages + old(session.pending), calls, session.pending, played, NonNil(late), ending)
      ensures Receives(old(consumer.received), consumer.received, played, ending, stream, structured)
    {
      hide DeliversAll, Receives;
      hide Flat, EnqueuedInAll, UsagesInAll, StreamOut, RoundOut, Enqueued, Yielded;
      hide HasActionable, Add, Total, UsagesOf, Final, ContinuesWith, PlayedUpTo, Answers, PlaysCall;
      ghost var all, out0 := messages + session.pending, consumer.received;
      NothingCalled(all, structured);
      var current := DrainInto(session, messages);
      calls, played := [], [];
      var prior, hasPrior, reset := NoUsage, false, false;
      while true
        invariant |calls| == |played| <= |script| && played == script[..|played|] && !consumer.stopped
        invariant ContinuesWith(calls, played, current)
        invariant Flat(calls) + current + session.pending == all + EnqueuedInAll(played)
        invariant reset == (stream && structured && |played| > 0)
        invariant stream ==> consumer.received == out0 + StreamOut(played, structured, true)
        invariant !stream ==> consumer.received == out0
        invariant !stream ==> prior == Total(UsagesInAll(played)) && hasPrior == (UsagesInAll(played) != [])
        decreases |script| - |calls|
      {
        ghost var queued, out := session.pending, consumer.received;
        CallStep(calls, current);
        if |played| == |script| {
          var _ := EnqueueMessages(session, late);
          StillOpen(script, all, calls, played, current, queued, NonNil(late));
          OpenShown(out0, out, played, stream, structured);
          return calls + [current], played + [[]], Open;
        }
        var events, injected, sum, any, over := MakeCall(session, script[|played|], stream, reset, prior, hasPrior, late, consumer);
        RoundStep(played, events, structured);
        Delivered(Flat(calls) + current, queued, all, EnqueuedInAll(played), Enqueued(events), NonNil(late));
        if over.Some? {
          LastRound(script, all, calls, played, current, events, injected, session.pending, NonNil(late), over.value);
          LastShown(out0, out, consumer.received, played, events, over.value, stream, structured);
          return calls + [current], played + [events], over.value;
        }
        GoesOn(script, calls, played, current, events, injected);
        if !stream { NotYetShown(out, consumer.received, played, events, prior, hasPrior); }
        calls, played := calls + [current], played + [events];
        current, prior, hasPrior := injected, sum, any;
        reset := stream && structured;
      }
    }
  }

  /** The consumer was told of an error, or the call is still open. */
  predicate Breaks(ending: Option<Ending>) {
    ending.Some? && (ending.value.Failed? || ending.value.Open?)
  }

  /** One call: it plays all of its events unless something stops it, and what is injected
      goes to a further call. */
  ghost predicate PlaysCall(events: seq<Event>, played: seq<Event>, injected: seq<Message>, ending: Option<Ending>) {
    && played <= events
    && match ending
       case None => played == events && Clean(played) && !Actionable(played) && injected != []
       case Some(Completed) => played == events && Clean(played) && injected == []
       case Some(Failed(e)) =>
         played != [] && played[|played| - 1] == Fails(e) && Clean(played[..|played| - 1]) && injected == []
       case Some(Stopped) => Clean(played) && injected == []
       case Some(Open) => false
  }

  /** What is injected and what stays queued are what was queued, before the call and during it. */
  ghost predicate TakesQueue(queued: seq<Message>, played: seq<Event>, injected: seq<Message>, pending: seq<Message>,
                             late: seq<Message>, ending: Option<Ending>)
  {
    && (ending.None? ==> injected + pending == queued + Enqueued(played) && pending == [])
    && (ending.Some? ==> injected + pending == queued + Enqueued(played) + late)
    && (ending == Some(Completed) ==> Actionable(played) || pending == late)
  }

  /** What a consumer that is not streamed to has received, before and after a call. */
  ghost predicate Answers(before: seq<Item>, after: seq<Item>, us: seq<Update>, ending: Option<Ending>) {
    match ending
    case None => after == before
    case Some(Completed) => after == before + Emits(us)
    case Some(Failed(e)) => after == before + [Broken(e)]
    case Some(Stopped) => before <= after <= before + Emits(us)
    case Some(Open) => after == before
  }

  /** What the consumer of a whole run has received. A stream shows every update of every call
      at once. Without streaming only the last response is shown, with the usage of all calls. */
  ghost predicate Receives(before: seq<Item>, after: seq<Item>, played: seq<seq<Event>>, ending: Ending, stream: bool, structured: bool) {
    if stream then after == before + StreamOut(played, structured, !Breaks(Some(ending)))
    else
      played != [] &&
      var n := |played| - 1;
      var us := Answer(Yielded(played[n]), UsagesInAll(played[..n]));
      Answers(before, after, us, Some(ending)) && Total(UsagesOf(us)) == Total(UsagesInAll(played))
  }

  /** Everything is handed to a call exactly once, in order, or still pending. A complete run leaves
      exactly what arrived after its last look at the queue, unless its last call asked for a
      function. */
  ghost predicate DeliversAll(given: seq<Message>, calls: seq<seq<Message>>, pending: seq<Message>, played: seq<seq<Event>>,
                              late: seq<Message>, ending: Ending)
  {
    && Flat(calls) + pending == given + EnqueuedInAll(played) + late
    && (ending == Completed ==> played != [] && (Actionable(played[|played| - 1]) || pending == late))
  }

  ghost predicate ContinuesWith(calls: seq<seq<Message>>, played: seq<seq<Event>>, current: seq<Message>) {
    && |calls| == |played|
    && (forall i :: 0 < i < |calls| ==> calls[i] != [])
    && (forall i :: 0 <= i < |played| ==> Clean(played[i]) && !Actionable(played[i]))
    && (calls != [] ==> current != [])
  }

  /** What the provider is called for: all calls but the first are for injected messages, and
      none follows a call that asked for a function. */
  ghost predicate PlayedUpTo(script: seq<seq<Event>>, calls: seq<seq<Message>>, played: seq<seq<Event>>, ending: Ending) {
    var n := |played| - 1;
    && |calls| == n + 1 > 0 && n <= |script| && played[..n] == script[..n]
    && (n < |script| ==> played[n] <= script[n])
    && ContinuesWith(calls[..n], played[..n], calls[n])
    && (ending.Open? <==> n == |script|)
    && (ending.Completed? ==> played[n] == script[n])
    && if ending.Failed? then
         played[n] != [] && played[n][|played[n]| - 1] == Fails(ending.error) && Clean(played[n][..|played[n]| - 1])
       else Clean(played[n])
  }

  lemma NothingCalled(current: seq<Message>, structured: bool)
    ensures ContinuesWith([], [], current) && Flat<Message>([]) == [] && EnqueuedInAll([]) == []
    ensures UsagesInAll([]) == [] && Total([]) == NoUsage && StreamOut([], structured, true) == []
  {
  }

  lemma CallStep(calls: seq<seq<Message>>, current: seq<Message>)
    ensures Flat(calls + [current]) == Flat(calls) + current
  {
    assert (calls + [current])[..|calls|] == calls;
  }

  /** What one more call adds to each reading of the calls. */
  lemma RoundStep(rounds: seq<seq<Event>>, events: seq<Event>, structured: bool)
    ensures EnqueuedInAll(rounds + [events]) == EnqueuedInAll(rounds) + Enqueued(events)
    ensures UsagesInAll(rounds + [events]) == UsagesInAll(rounds) + UsagesOf(Yielded(events))
    ensures StreamOut(rounds + [events], structured, true)
         == StreamOut(rounds, structured, true) + RoundOut(events, structured && rounds != [], true)
  {
    assert (rounds + [events])[..|rounds|] == rounds;
  }

  lemma Delivered(handed: seq<Message>, queued: seq<Message>, all: seq<Message>, enqueued: seq<Message>, more: seq<Message>,
                  late: seq<Message>)
    requires handed + queued == all + enqueued
    ensures handed + (queued + more) == all + (enqueued + more)
    ensures handed + (queued + more + late) == all + (enqueued + more) + late
  {
    assert handed + (queued + more) == (handed + queued) + more;
    assert handed + (queued + more + late) == (handed + queued) + more + late;
  }

  lemma LastRound(script: seq<seq<Event>>, all: seq<Message>, calls: seq<seq<Message>>, played: seq<seq<Event>>,
                  current: seq<Message>, events: seq<Event>, injected: seq<Message>, pending: seq<Message>, late: seq<Message>,
                  ending: Ending)
    requires ContinuesWith(calls, played, current) && |played| < |script| && played == script[..|played|]
    requires PlaysCall(script[|played|], events, injected, Some(ending))
    requires Flat(calls + [current]) + (injected + pending) == all + EnqueuedInAll(played + [events]) + late
    requires ending == Completed ==> Actionable(events) || pending == late
    ensures PlayedUpTo(script, calls + [current], played + [events], ending)
    ensures DeliversAll(all, calls + [current], pending, played + [events], late, ending)
  {
    hide *;
    LastPlayed(script, calls, played, current, events, injected, ending);
    assert injected + pending == pending;
    LastDelivered(all, calls + [current], pending, played, events, late, ending);
  }

  lemma LastPlayed(script: seq<seq<Event>>, calls: seq<seq<Message>>, played: seq<seq<Event>>, current: seq<Message>,
                   events: seq<Event>, injected: seq<Message>, ending: Ending)
    requires ContinuesWith(calls, played, current) && |played| < |script| && played == script[..|played|]
    requires PlaysCall(script[|played|], events, injected, Some(ending))
    ensures PlayedUpTo(script, calls + [current], played + [events], ending) && injected == []
  {
    hide Actionable, Clean;
    var cs, ps, n := calls + [current], played + [events], |played|;
    assert cs[..n] == calls && cs[n] == current && ps[..n] == played && ps[n] == events by {
      hide *;
      SameCount(calls, played, current);
    }
    hide ContinuesWith;
    SameCount(calls, played, current);
  }

  lemma SameCount(calls: seq<seq<Message>>, played: seq<seq<Event>>, current: seq<Message>)
    requires ContinuesWith(calls, played, current)
    ensures |calls| == |played|
  {
  }

  lemma LastDelivered(all: seq<Message>, calls: seq<seq<Message>>, pending: seq<Message>, played: seq<seq<Event>>,
                      events: seq<Event>, late: seq<Message>, ending: Ending)
    requires Flat(calls) + pending == all + EnqueuedInAll(played + [events]) + late
    requires ending == Completed ==> Actionable(events) || pending == late
    ensures DeliversAll(all, calls, pending, played + [events], late, ending)
  {
    hide Flat, EnqueuedInAll, Actionable;
  }

  lemma LastShown(before: seq<Item>, out: seq<Item>, after: seq<Item>, played: seq<seq<Event>>, events: seq<Event>,
                  ending: Ending, stream: bool, structured: bool)
    requires stream ==> out == before + StreamOut(played, structured, true)
    requires stream ==> after == out + RoundOut(events, structured && played != [], !Breaks(Some(ending)))
    requires !stream ==> out == before && Answers(out, after, Answer(Yielded(events), UsagesInAll(played)), Some(ending))
    ensures Receives(before, after, played + [events], ending, stream, structured)
  {
    hide *;
    assert (played + [events])[..|played|] == played && (played + [events])[|played|] == events;
    if stream {
      StreamStep(played, events, structured, !Breaks(Some(ending)));
      StreamReceives(before, after, played + [events], ending, structured);
    } else {
      AnswerTotal(Yielded(events), UsagesInAll(played));
      RoundStep(played, events, structured);
      AnswerReceives(before, after, played + [events], ending, structured);
    }
  }

  lemma StreamStep(played: seq<seq<Event>>, events: seq<Event>, structured: bool, whole: bool)
    ensures StreamOut(played + [events], structured, whole)
         == StreamOut(played, structured, true) + RoundOut(events, structured && played != [], whole)
  {
    hide RoundOut;
    assert (played + [events])[..|played|] == played;
  }

  lemma StreamReceives(before: seq<Item>, after: seq<Item>, played: seq<seq<Event>>, ending: Ending, structured: bool)
    requires after == before + StreamOut(played, structured, !Breaks(Some(ending)))
    ensures Receives(before, after, played, ending, true, structured)
  {
    hide StreamOut, Breaks;
  }

  lemma AnswerReceives(before: seq<Item>, after: seq<Item>, played: seq<seq<Event>>, ending: Ending, structured: bool)
    requires played != []
    requires var n := |played| - 1;
      var us := Answer(Yielded(played[n]), UsagesInAll(played[..n]));
      Answers(before, after, us, Some(ending)) && Total(UsagesOf(us)) == Total(UsagesInAll(played))
    ensures Receives(before, after, played, ending, false, structured)
  {
    hide Answer, Answers, UsagesOf, UsagesInAll, Yielded, Total;
  }

  lemma StillOpen(script: seq<seq<Event>>, all: seq<Message>, calls: seq<seq<Message>>, played: seq<seq<Event>>,
                  current: seq<Message>, pending: seq<Message>, late: seq<Message>)
    requires ContinuesWith(calls, played, current) && played == script
    requires Flat(calls + [current]) + pending == all + EnqueuedInAll(played)
    ensures PlayedUpTo(script, calls + [current], played + [[]], Open)
    ensures DeliversAll(all, calls + [current], pending + late, played + [[]], late, Open)
  {
    NothingEnqueued(played);
    hide Flat, EnqueuedInAll, Actionable;
    assert (calls + [current])[..|calls|] == calls && (played + [[]])[..|played|] == played;
    assert Flat(calls + [current]) + (pending + late) == Flat(calls + [current]) + pending + late;
  }

  lemma NothingEnqueued(played: seq<seq<Event>>)
    ensures EnqueuedInAll(played + [[]]) == EnqueuedInAll(played)
  {
    assert (played + [[]])[..|played|] == played;
  }

  lemma OpenShown(before: seq<Item>, out: seq<Item>, played: seq<seq<Event>>, stream: bool, structured: bool)
    requires out == if stream then before + StreamOut(played, structured, true) else before
    ensures Receives(before, out, played + [[]], Open, stream, structured)
  {
    assert RoundOut([], structured && played != [], false) == [];
    hide Receives, StreamOut, RoundOut, Answer;
    LastShown(before, out, out, played, [], Open, stream, structured);
  }

  lemma GoesOn(script: seq<seq<Event>>, calls: seq<seq<Message>>, played: seq<seq<Event>>, current: seq<Message>,
               events: seq<Event>, injected: seq<Message>)
    requires ContinuesWith(calls, played, current) && |played| < |script| && played == script[..|played|]
    requires PlaysCall(script[|played|], events, injected, None)
    ensures ContinuesWith(calls + [current], played + [events], injected)
    ensures played + [events] == script[..|played| + 1]
  {
  }

  lemma NotYetShown(before: seq<Item>, after: seq<Item>, played: seq<seq<Event>>, events: seq<Event>, prior: UsageDetails, hasPrior: bool)
    requires Answers(before, after, Final(Yielded(events), prior, hasPrior), None)
    requires prior == Total(UsagesInAll(played)) && hasPrior == (UsagesInAll(played) != [])
    ensures after == before
    ensures Add(prior, Total(UsagesOf(Yielded(events)))) == Total(UsagesInAll(played + [events]))
    ensures (hasPrior || UsagesOf(Yielded(events)) != []) == (UsagesInAll(played + [events]) != [])
  {
    TotalConcat(UsagesInAll(played), UsagesOf(Yielded(events)));
    assert (played + [events])[..|played|] == played;
  }

  lemma NothingPlayed()
    ensures Enqueued([]) == [] && Yielded([]) == [] && Shown([]) == [] && !Actionable([]) && Clean([])
    ensures forall g :: FoldAll(g, []) == g
    ensures forall reset :: Marked([], reset) == []
  {
  }

  /** The queue, what the consumer has received and the response, at some moment of a call. */
  datatype Books = Books(pending: seq<Message>, received: seq<Item>, view: Gathered)

  /** They are what the events so far make of those at the start. */
  ghost predicate KeepsBooks(played: seq<Event>, stream: bool, reset: bool, start: Books, now: Books, actionable: bool, resetLeft: bool) {
    && Clean(played)
    && now.pending == start.pending + Enqueued(played)
    && actionable == Actionable(played)
    && resetLeft == (reset && Yielded(played) == [])
    && (Shown(played) == [] <==> Yielded(played) == []) && (Shown(played) != [] ==> Shown(played)[0].Emit?)
    && (stream ==> now.received == start.received + Marked(Shown(played), reset))
    && (!stream ==> now.received == start.received && now.view == FoldAll(start.view, Yielded(played)))
  }

  lemma NothingKept(stream: bool, reset: bool, start: Books)
    ensures KeepsBooks([], stream, reset, start, start, false, reset)
  {
    NothingPlayed();
    assert start.pending + [] == start.pending && start.received + [] == start.received;
  }

  /** What one event makes of them. */
  function BooksAfter(e: Event, stream: bool, reset: bool, now: Books): Books {
    match e
    case Enqueues(batch) => now.(pending := now.pending + NonNil(batch))
    case Yields(u) =>
      if stream then now.(received := now.received + [Emit(u, reset)]) else now.(view := Fold(now.view, u))
    case Fails(x) => now.(received := now.received + [Broken(x)])
  }

  /** A call as it was played: a prefix of its events took place, all of them unless something
      ended the call early, and queue, consumer, response and marks are those of the events. */
  ghost predicate PlayedCall(events: seq<Event>, played: seq<Event>, stream: bool, reset: bool, start: Books, now: Books,
                             actionable: bool, resetLeft: bool, ending: Option<Ending>)
  {
    && played <= events && (ending.None? ==> played == events && Clean(played))
    && (ending.Some? ==> played != [] && Clean(played[..|played| - 1]) && match ending.value
        case Failed(e) => played[|played| - 1] == Fails(e)
        case Stopped => stream && Clean(played) && Yielded(played) != []
        case _ => false)
    && now.pending == start.pending + Enqueued(played)
    && actionable == Actionable(played)
    && resetLeft == (reset && Yielded(played) == [])
    && (stream ==> now.received == start.received + Marked(Shown(played), reset))
    && (!stream ==> now.view == FoldAll(start.view, Yielded(played)))
    && (!stream ==> now.received == start.received + if ending.Some? then [Broken(ending.value.error)] else [])
  }

  lemma KeptToTheEnd(events: seq<Event>, played: seq<Event>, stream: bool, reset: bool, start: Books, now: Books,
                     actionable: bool, resetLeft: bool)
    requires played == events[..|events|] && KeepsBooks(played, stream, reset, start, now, actionable, resetLeft)
    ensures PlayedCall(events, played, stream, reset, start, now, actionable, resetLeft, None)
  {
    hide Enqueued, Yielded, Shown, HasActionable, Streamed, FoldAll, Marked, Clean;
    assert events[..|events|] == events;
  }

  /** One more event: the call goes on as it did, or is played to its early end. */
  lemma KeptEvent(events: seq<Event>, played: seq<Event>, e: Event, stream: bool, reset: bool, start: Books, now: Books,
                  actionable: bool, resetLeft: bool, ending: Option<Ending>)
    requires KeepsBooks(played, stream, reset, start, now, actionable, resetLeft)
    requires |played| < |events| && played + [e] == events[..|played| + 1]
    requires match e
      case Enqueues(_) => ending.None?
      case Yields(_) => ending.None? || (stream && ending == Some(Stopped))
      case Fails(x) => ending == Some(Failed(x))
    ensures var all, next := played + [e], BooksAfter(e, stream, resetLeft, now);
      var a, r := actionable || (e.Yields? && HasActionable(e.update.contents)), resetLeft && !e.Yields?;
      if ending.None? then KeepsBooks(all, stream, reset, start, next, a, r)
      else PlayedCall(events, all, stream, reset, start, next, a, r, ending)
  {
    hide PlayedCall;
    match e
    case Enqueues(batch) => KeptEnqueue(played, batch, stream, reset, start, now, actionable, resetLeft);
    case Yields(u) =>
      KeptYield(played, u, stream, reset, start, now, actionable, resetLeft);
      if ending.Some? {
        EndsEarly(events, played, e, stream, reset, start, BooksAfter(e, stream, resetLeft, now), actionable || HasActionable(u.contents));
      }
    case Fails(x) => KeptFailure(events, played, x, stream, reset, start, now, actionable, resetLeft);
  }

  lemma EndsEarly(events: seq<Event>, played: seq<Event>, e: Event, stream: bool, reset: bool, start: Books, next: Books, actionable: bool)
    requires stream && e.Yields? && |played| < |events| && played + [e] == events[..|played| + 1]
    requires KeepsBooks(played + [e], stream, reset, start, next, actionable, false)
    ensures PlayedCall(events, played + [e], stream, reset, start, next, actionable, false, Some(Stopped))
  {
    EventStep(played, e);
    hide Enqueued, Yielded, Shown, HasActionable, Streamed, FoldAll, Marked;
    var all := played + [e];
    assert all[..|all| - 1] == played;
  }

  lemma KeptEnqueue(played: seq<Event>, batch: seq<Option<Message>>, stream: bool, reset: bool, start: Books, now: Books,
                    actionable: bool, resetLeft: bool)
    requires KeepsBooks(played, stream, reset, start, now, actionable, resetLeft)
    ensures KeepsBooks(played + [Enqueues(batch)], stream, reset, start, BooksAfter(Enqueues(batch), stream, resetLeft, now), actionable, resetLeft)
  {
    hide Enqueued, Yielded, Shown, HasActionable, Streamed, NonNil, FoldAll, Marked, Clean;
    EventStep(played, Enqueues(batch));
    AssociateThree(start.pending, Enqueued(played), NonNil(batch));
  }

  lemma KeptYield(played: seq<Event>, u: Update, stream: bool, reset: bool, start: Books, now: Books, actionable: bool, resetLeft: bool)
    requires KeepsBooks(played, stream, reset, start, now, actionable, resetLeft)
    ensures KeepsBooks(played + [Yields(u)], stream, reset, start, BooksAfter(Yields(u), stream, resetLeft, now),
                       actionable || HasActionable(u.contents), false)
  {
    hide Enqueued, Yielded, Shown, HasActionable, Streamed, NonNil, FoldAll, Marked, Clean, Fold;
    EventStep(played, Yields(u));
    MarkedStep(Shown(played), Emit(u, false), reset);
    FoldAllConcat(start.view, Yielded(played), [u]);
    OneUpdate(FoldAll(start.view, Yielded(played)), u);
    AssociateThree(start.received, Marked(Shown(played), reset), [Emit(u, resetLeft)]);
  }

  /** A failure ends the call: the consumer hears of it, and nothing else happens. */
  lemma KeptFailure(events: seq<Event>, played: seq<Event>, e: string, stream: bool, reset: bool, start: Books, now: Books,
                    actionable: bool, resetLeft: bool)
    requires KeepsBooks(played, stream, reset, start, now, actionable, resetLeft)
    requires |played| < |events| && played + [Fails(e)] == events[..|played| + 1]
    ensures PlayedCall(events, played + [Fails(e)], stream, reset, start, BooksAfter(Fails(e), stream, resetLeft, now),
                       actionable, resetLeft, Some(Failed(e)))
  {
    hide Enqueued, Yielded, Shown, HasActionable, Streamed, NonNil, FoldAll, Marked, Clean;
    EventStep(played, Fails(e));
    MarkedStep(Shown(played), Broken(e), reset);
    AssociateThree(start.received, Marked(Shown(played), reset), [Broken(e)]);
    var all := played + [Fails(e)];
    assert all[..|all| - 1] == played;
  }

  lemma AssociateThree<T>(a: seq<T>, b: seq<T>, c: seq<T>)
    ensures a + (b + c) == a + b + c
  {
  }

  /** What one more event adds to each reading of the events. */
  lemma EventStep(before: seq<Event>, e: Event)
    ensures Enqueued(before + [e]) == if e.Enqueues? then Enqueued(before) + NonNil(e.batch) else Enqueued(before)
    ensures Yielded(before + [e]) == if e.Yields? then Yielded(before) + [e.update] else Yielded(before)
    ensures Shown(before + [e]) == if e.Enqueues? then Shown(before) else Shown(before) + ShownFor(e)
    ensures Clean(before) && !e.Fails? ==> Clean(before + [e])
    ensures Actionable(before + [e]) <==> Actionable(before) || (e.Yields? && HasActionable(e.update.contents))
  {
    var all := before + [e];
    assert all[..|before|] == before;
    if e.Yields? {
      var us, c := Yielded(before), e.update.contents;
      assert Yielded(all) == us + [e.update];
      assert (us + [e.update])[..|us|] == us;
      assert forall x :: x in Streamed(us) + c <==> x in Streamed(us) || x in c;
    } else {
      assert Yielded(all) == Yielded(before);
    }
  }

  lemma MarkedStep(items: seq<Item>, item: Item, reset: bool)
    requires items == [] || items[0].Emit?
    ensures Marked(items + [item], reset)
         == Marked(items, reset) + [if item.Emit? && !item.resets && reset && items == [] then Emit(item.update, true) else item]
  {
    if items != [] { assert (items + [item])[1..] == items[1..] + [item]; }
  }

  lemma GatherLast(s: seq<Content>, i: nat)
    requires i < |s|
    ensures Gather(s[..i + 1], UsageOf)
         == if s[i].Usage? then Gather(s[..i], UsageOf) + [s[i].details] else Gather(s[..i], UsageOf)
  {
    assert s[..i + 1] == s[..i] + [s[i]];
    GatherConcat(s[..i], [s[i]], UsageOf);
    GatherOne(s[i], UsageOf);
  }

  lemma MessageMore(prior: UsageDetails, messages: seq<Reply>, i: nat)
    requires i < |messages|
    ensures var us, more := Gather(AllContents(messages[..i]), UsageOf), Gather(messages[i].contents, UsageOf);
      && Gather(AllContents(messages[..i + 1]), UsageOf) == us + more
      && Add(Add(prior, Total(us)), Total(more)) == Add(prior, Total(us + more))
  {
    hide Add, Total, Gather;
    var us, more := Gather(AllContents(messages[..i]), UsageOf), Gather(messages[i].contents, UsageOf);
    assert messages[..i + 1][..i] == messages[..i];
    GatherConcat(AllContents(messages[..i]), messages[i].contents, UsageOf);
    TotalConcat(us, more);
    AddAssociates(prior, Total(us), Total(more));
  }

  lemma NothingMore(prior: UsageDetails)
    ensures Gather([], UsageOf) == [] && AllContents([]) == [] && Add(prior, Total([])) == prior
  {
    AddNothing(prior);
  }

  lemma OneMore(prior: UsageDetails, us: seq<UsageDetails>, u: UsageDetails)
    ensures Add(Add(prior, Total(us)), u) == Add(prior, Total(us + [u]))
  {
    TotalConcat(us, [u]);
    TotalOne(u);
    AddAssociates(prior, Total(us), u);
  }
}
