/** The whole life of a message index: updates, compactions and restorations, in any order. */
module History {
  import opened Messages
  import opened Grouping
  import opened IndexState
  import opened Updating
  import opened Collapsing
  import opened Pipeline

  /** One thing that happens to an index: a strategy leaves it as `after`, the conversation grows,
      or it is made again from its groups alone. */
  datatype Round =
    | Compacts(strategy: Strategy, after: seq<Group>, compacted: bool, err: Option<Error>)
    | Grows(delta: seq<Message>)
    | Restores

  datatype State = State(groups: seq<Group>, turn: int, last: Option<Message>)

  /** The conversation after some rounds. */
  function Said(ms: seq<Message>, rounds: seq<Round>): seq<Message> {
    if rounds == [] then ms
    else
      var n := |rounds| - 1;
      if rounds[n].Grows? then Said(ms, rounds[..n]) + rounds[n].delta else Said(ms, rounds[..n])
  }

  /** What was said in each round, grouped by itself. */
  function Grouped(measure: Measure, ms: seq<Message>, rounds: seq<Round>): seq<Group> {
    if rounds == [] then Parse(measure, ms, 0)
    else
      var n := |rounds| - 1;
      var before := Grouped(measure, ms, rounds[..n]);
      if rounds[n].Grows? then before + Parse(measure, rounds[n].delta, UserCount(Said(ms, rounds[..n]))) else before
  }

  function Restored(groups: seq<Group>): State {
    var (last, turn) := Scan(groups, None, 0);
    State(groups, turn, last)
  }

  /** The index after one more round. */
  function Next(measure: Measure, said: seq<Message>, s: State, round: Round): State {
    match round
    case Compacts(_, after, _, _) => s.(groups := after)
    case Restores => Restored(s.groups)
    case Grows(delta) =>
      var (v, turn, last) := Updated(measure, s.groups, s.turn, s.last, said + delta);
      State(v, turn, last)
  }

  /** The index after some rounds. */
  function After(measure: Measure, ms: seq<Message>, rounds: seq<Round>): State {
    if rounds == [] then State(Parse(measure, ms, 0), UserCount(ms), Last(ms))
    else
      var n := |rounds| - 1;
      Next(measure, Said(ms, rounds[..n]), After(measure, ms, rounds[..n]), rounds[n])
  }

  /** One round as it may happen: the strategy has the specified outcome, the old messages are
      known again, or the last message ends a group that is no summary. */
  ghost predicate MayFollow(measure: Measure, p: seq<Group>, said: seq<Message>, s: State, round: Round) {
    match round
    case Compacts(strategy, after, compacted, err) => Outcome(measure, strategy, s.groups, after, compacted, err)
    case Grows(delta) => said == [] || KnownAgain(IncludedRawMessages(s.groups), said, delta)
    case Restores => LastRaw(p) == Last(said)
  }

  ghost predicate IsHistory(measure: Measure, ms: seq<Message>, rounds: seq<Round>) {
    rounds == [] ||
    var before := rounds[..|rounds| - 1];
    && IsHistory(measure, ms, before)
    && MayFollow(measure, Grouped(measure, ms, before), Said(ms, before), After(measure, ms, before), rounds[|rounds| - 1])
  }

  // ---------------------------------------------------------------- in pieces

  ghost predicate AllWellFormed(measure: Measure, p: seq<Group>) {
    forall i :: 0 <= i < |p| ==> WellFormedGroup(measure, p[i])
  }

  /** What is true of an index at every moment of its life, with the conversation grouped in the
      pieces in which it came: the index holds these groups, flags and inserted summaries apart,
      and knows the turn count and the last message. */
  ghost predicate Tracks(measure: Measure, p: seq<Group>, said: seq<Message>, s: State) {
    && Flatten(p) == said && AllWellFormed(measure, p)
    && Conserves(p, s.groups) && WellBuilt(s.groups, s.turn)
    && s.turn == UserCount(said) && s.last == Last(said)
  }

  lemma FreshTracks(measure: Measure, ms: seq<Message>)
    ensures Tracks(measure, Parse(measure, ms, 0), ms, State(Parse(measure, ms, 0), UserCount(ms), Last(ms)))
  {
    var p := Parse(measure, ms, 0);
    ParseWellBuilt(measure, ms);
    ParsePartitions(measure, ms, 0);
    ParseShapes(measure, ms, 0);
    ReflexiveConserves(p);
    hide Parse, WellBuilt, Conserves, Flatten, WellFormedGroup;
  }

  lemma ReflexiveConserves(v: seq<Group>)
    ensures Conserves(v, v)
  {
    ConservesPointwise(v, v);
  }

  /** The pieces, more of them. */
  lemma PiecesMore(measure: Measure, p: seq<Group>, delta: seq<Message>, turn: int)
    requires AllWellFormed(measure, p)
    ensures var q := p + Parse(measure, delta, turn); AllWellFormed(measure, q) && Flatten(q) == Flatten(p) + delta
  {
    hide Parse, Flatten, WellFormedGroup;
    ParseShapes(measure, delta, turn);
    ParsePartitions(measure, delta, turn);
    FlattenConcat(p, Parse(measure, delta, turn));
  }

  /** Growing an index whose messages are known again appends the grouping of exactly the new
      ones, whatever they begin with. */
  lemma GrowthAppends(measure: Measure, p: seq<Group>, said: seq<Message>, s: State, delta: seq<Message>)
    requires Tracks(measure, p, said, s) && MayFollow(measure, p, said, s, Grows(delta))
    ensures Tracks(measure, p + Parse(measure, delta, s.turn), said + delta, Next(measure, said, s, Grows(delta)))
    ensures said != [] ==> Next(measure, said, s, Grows(delta)).groups == s.groups + Parse(measure, delta, s.turn)
  {
    hide *;
    if said == [] {
      FirstGrowth(measure, p, s, delta);
      assert said + delta == delta;
    } else {
      TracksKnown(measure, p, said, s);
      GrowsKnown(measure, p, said, s, delta);
      UpdateAppends(measure, s.groups, s.turn, said, delta);
      GrownTracks(measure, p, said, s, delta);
    }
  }

  lemma GrowsKnown(measure: Measure, p: seq<Group>, said: seq<Message>, s: State, delta: seq<Message>)
    requires said != [] && MayFollow(measure, p, said, s, Grows(delta))
    ensures KnownAgain(IncludedRawMessages(s.groups), said, delta)
  {
    hide KnownAgain;
  }

  /** Where nothing was said, an update groups the new messages afresh. */
  lemma FirstGrowth(measure: Measure, p: seq<Group>, s: State, delta: seq<Message>)
    requires Tracks(measure, p, [], s)
    ensures Tracks(measure, p + Parse(measure, delta, s.turn), delta, Next(measure, [], s, Grows(delta)))
  {
    hide Parse;
    NothingPieces(measure, p);
    EmptyGrouping(measure);
    FreshTracks(measure, delta);
    assert [] + Parse(measure, delta, 0) == Parse(measure, delta, 0) && [] + delta == delta;
    assert Next(measure, [], s, Grows(delta)) == State(Parse(measure, delta, 0), UserCount(delta), Last(delta));
    hide Tracks;
  }

  lemma NothingPieces(measure: Measure, p: seq<Group>)
    requires AllWellFormed(measure, p)
    ensures p != [] ==> Flatten(p) != []
  {
    if p != [] { assert WellFormedGroup(measure, p[0]); }
  }

  lemma TracksKnown(measure: Measure, p: seq<Group>, said: seq<Message>, s: State)
    requires Tracks(measure, p, said, s)
    ensures IncludedRawMessages(s.groups) <= |said| && s.last == Last(said) && s.turn == UserCount(said)
  {
    forall g | g in p ensures g.messageCount == |g.messages| {
      var i :| 0 <= i < |p| && p[i] == g;
      assert WellFormedGroup(measure, p[i]);
    }
    hide Conserves, IncludedRawMessages, WellBuilt;
    CountedAtMost(p, s.groups);
  }

  lemma GrownTracks(measure: Measure, p: seq<Group>, said: seq<Message>, s: State, delta: seq<Message>)
    requires Tracks(measure, p, said, s) && said != []
    requires Updated(measure, s.groups, s.turn, Last(said), said + delta)
          == (s.groups + Parse(measure, delta, s.turn), s.turn + UserCount(delta), Last(said + delta))
    ensures Tracks(measure, p + Parse(measure, delta, s.turn), said + delta, Next(measure, said, s, Grows(delta)))
    ensures Next(measure, said, s, Grows(delta)).groups == s.groups + Parse(measure, delta, s.turn)
  {
    hide Parse, WellBuilt, Conserves, Flatten, AllWellFormed, UserCount, Updated, Last;
    var more := Parse(measure, delta, s.turn);
    PiecesMore(measure, p, delta, s.turn);
    AppendWellBuilt(measure, s.groups, delta, s.turn);
    UserCountConcat(said, delta);
    ReflexiveConserves(more);
    ConservesConcat(p, s.groups, more, more);
  }

  lemma CompactionTracks(measure: Measure, p: seq<Group>, said: seq<Message>, s: State, round: Round)
    requires Tracks(measure, p, said, s) && round.Compacts? && MayFollow(measure, p, said, s, round)
    ensures Tracks(measure, p, said, Next(measure, said, s, round))
  {
    hide WellBuilt, Conserves, UserCount, Outcome, Flatten, AllWellFormed;
    OutcomeConserves(measure, round.strategy, s.groups, round.after, round.compacted, round.err);
    ConservesTransitive(p, s.groups, round.after);
  }

  /** Making an index again from its groups changes nothing if and only if the last message ends a
      group that is no summary. The turn count is recovered always. */
  lemma RestoringTracks(measure: Measure, p: seq<Group>, said: seq<Message>, s: State)
    requires Tracks(measure, p, said, s)
    ensures Restored(s.groups).turn == s.turn
    ensures Restored(s.groups) == s <==> LastRaw(p) == Last(said)
  {
    hide WellBuilt, Conserves, UserCount, Flatten, AllWellFormed, Scan, LastRaw;
    RestoreRecovers(s.groups, s.turn);
    ConservesLastRaw(p, s.groups);
  }

  /** However updates, compactions and restorations follow each other, the index tracks the
      conversation, whatever the new messages of a round begin with. */
  lemma {:induction false} AlwaysTracks(measure: Measure, ms: seq<Message>, rounds: seq<Round>)
    requires IsHistory(measure, ms, rounds)
    ensures Tracks(measure, Grouped(measure, ms, rounds), Said(ms, rounds), After(measure, ms, rounds))
  {
    if rounds == [] {
      FreshTracks(measure, ms);
    } else {
      var n := |rounds| - 1;
      var p, said, s := Grouped(measure, ms, rounds[..n]), Said(ms, rounds[..n]), After(measure, ms, rounds[..n]);
      AlwaysTracks(measure, ms, rounds[..n]);
      assert s.turn == UserCount(said);
      hide Tracks, MayFollow, Next, Parse, UserCount;
      match rounds[n] {
        case Grows(delta) => GrowthAppends(measure, p, said, s, delta);
        case Compacts(_, _, _, _) => CompactionTracks(measure, p, said, s, rounds[n]);
        case Restores => RestoredTracks(measure, p, said, s);
      }
    }
  }

  lemma RestoredTracks(measure: Measure, p: seq<Group>, said: seq<Message>, s: State)
    requires Tracks(measure, p, said, s) && MayFollow(measure, p, said, s, Restores)
    ensures Tracks(measure, p, said, Next(measure, said, s, Restores))
  {
    hide Tracks;
    RestoringTracks(measure, p, said, s);
  }

  /** What a caller gets to see after any such history: the included messages, summaries apart,
      are part of the conversation in order, with exactly its system messages. */
  lemma AlwaysFaithful(measure: Measure, ms: seq<Message>, rounds: seq<Round>)
    requires IsHistory(measure, ms, rounds)
    ensures var s, said := After(measure, ms, rounds), Said(ms, rounds);
      && IsSubsequence(Project(s.groups, IncludedRaw), said)
      && Project(s.groups, IsSystem) == SystemMessages(said)
      && WellBuilt(s.groups, s.turn) && s.turn == UserCount(said) && s.last == Last(said)
  {
    AlwaysTracks(measure, ms, rounds);
    hide Grouped, WellBuilt, Conserves, UserCount, After, Said, IsHistory, Flatten, WellFormedGroup;
    ConservedConversation(measure, Grouped(measure, ms, rounds), After(measure, ms, rounds).groups);
  }

  /** Restoring an index from the groups alone, at any moment of its life, recovers the turn
      counter, and the last message if and only if that ends a group that is no summary. */
  lemma AlwaysRestores(measure: Measure, ms: seq<Message>, rounds: seq<Round>)
    requires IsHistory(measure, ms, rounds)
    ensures var s := After(measure, ms, rounds);
      && Restored(s.groups).turn == s.turn
      && (Restored(s.groups) == s <==> LastRaw(Grouped(measure, ms, rounds)) == Last(Said(ms, rounds)))
  {
    AlwaysTracks(measure, ms, rounds);
    hide *;
    RestoringTracks(measure, Grouped(measure, ms, rounds), Said(ms, rounds), After(measure, ms, rounds));
  }

  // ---------------------------------------------------------------- as a whole

  /** In no round a group reaches into what is said next. */
  ghost predicate NothingReachesOn(ms: seq<Message>, rounds: seq<Round>) {
    rounds == [] ||
    var n := |rounds| - 1;
    && NothingReachesOn(ms, rounds[..n])
    && (rounds[n].Grows? ==> !ReachesInto(Said(ms, rounds[..n]), rounds[n].delta))
  }

  lemma {:induction false} PiecesHold(measure: Measure, ms: seq<Message>, rounds: seq<Round>)
    ensures Flatten(Grouped(measure, ms, rounds)) == Said(ms, rounds) && AllWellFormed(measure, Grouped(measure, ms, rounds))
  {
    if rounds == [] {
      ParsePartitions(measure, ms, 0);
      ParseShapes(measure, ms, 0);
    } else {
      var n := |rounds| - 1;
      PiecesHold(measure, ms, rounds[..n]);
      hide Parse, AllWellFormed, Flatten, UserCount;
      if rounds[n].Grows? {
        PiecesMore(measure, Grouped(measure, ms, rounds[..n]), rounds[n].delta, UserCount(Said(ms, rounds[..n])));
      }
    }
  }

  /** One piece more is the grouping of the whole if and only if the pieces before are and nothing
      reaches into it. */
  lemma PieceFits(measure: Measure, p: seq<Group>, said: seq<Message>, delta: seq<Message>)
    requires Flatten(p) == said && AllWellFormed(measure, p)
    ensures p + Parse(measure, delta, UserCount(said)) == Parse(measure, said + delta, 0)
       <==> p == Parse(measure, said, 0) && !ReachesInto(said, delta)
  {
    hide *;
    GroupsHold(measure, p);
    ParseConcat(measure, said, delta, 0);
    var q := Parse(measure, delta, UserCount(said));
    if Parse(measure, said + delta, 0) == p + q {
      CutsReachNothing(measure, said, delta, 0, p, q);
      SameFront(p, Parse(measure, said, 0), q);
    }
  }

  lemma GroupsHold(measure: Measure, p: seq<Group>)
    requires AllWellFormed(measure, p)
    ensures forall g :: g in p ==> g.messages != []
  {
    forall g | g in p ensures g.messages != [] {
      var i :| 0 <= i < |p| && p[i] == g;
      assert WellFormedGroup(measure, p[i]);
    }
  }

  lemma SameFront<T>(x: seq<T>, y: seq<T>, z: seq<T>)
    requires x + z == y + z
    ensures x == y
  {
    assert |x| == |y|;
    assert (x + z)[..|x|] == x && (y + z)[..|y|] == y;
  }

  /** The pieces are the grouping of the whole conversation if and only if in no round a group
      reaches into what is said next. */
  lemma {:induction false} PiecesAreWhole(measure: Measure, ms: seq<Message>, rounds: seq<Round>)
    ensures Grouped(measure, ms, rounds) == Parse(measure, Said(ms, rounds), 0) <==> NothingReachesOn(ms, rounds)
  {
    if rounds != [] {
      var n := |rounds| - 1;
      PiecesAreWhole(measure, ms, rounds[..n]);
      PiecesHold(measure, ms, rounds[..n]);
      hide Parse, ReachesInto, UserCount, Flatten, AllWellFormed;
      if rounds[n].Grows? {
        PieceFits(measure, Grouped(measure, ms, rounds[..n]), Said(ms, rounds[..n]), rounds[n].delta);
      }
    }
  }

  /** Then the index holds the grouping of the whole conversation, as if it had come at once. */
  lemma AlwaysInStep(measure: Measure, ms: seq<Message>, rounds: seq<Round>)
    requires IsHistory(measure, ms, rounds) && NothingReachesOn(ms, rounds)
    ensures Conserves(Parse(measure, Said(ms, rounds), 0), After(measure, ms, rounds).groups)
  {
    AlwaysTracks(measure, ms, rounds);
    PiecesAreWhole(measure, ms, rounds);
    hide Grouped, Parse, After, Said, IsHistory, NothingReachesOn, WellBuilt, Conserves;
  }
}
