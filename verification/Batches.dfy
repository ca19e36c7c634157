/** Which updates of a stream make up which message, and what a response keeps of the rest. */
module Batches {
  import opened Messages
  import opened Responses

  /** The value that some places give: it is given somewhere, or nowhere any is, and no other one. */
  ghost predicate Given<T>(values: seq<T>, none: T, value: T) {
    (forall v :: v in values && v != none ==> v == value) && (value != none ==> value in values)
  }

  /** Another value is given. */
  ghost predicate Clashes<T>(value: T, values: seq<T>, none: T) {
    value != none && exists v :: v in values && v != none && v != value
  }

  function Authors(us: seq<Update>): (r: seq<string>)
    ensures |r| == |us| && forall i :: 0 <= i < |us| ==> r[i] == us[i].author
  {
    seq(|us|, i requires 0 <= i < |us| => us[i].author)
  }

  function Ids(us: seq<Update>): (r: seq<string>)
    ensures |r| == |us| && forall i :: 0 <= i < |us| ==> r[i] == us[i].messageId
  {
    seq(|us|, i requires 0 <= i < |us| => us[i].messageId)
  }

  /** The roles. Where the first update has none, the assistant speaks. */
  function Roles(us: seq<Update>): (r: seq<Role>)
    ensures |r| == |us| && forall i :: 0 <= i < |us| ==> r[i] == if i == 0 && us[i].role == Custom("") then Assistant else us[i].role
  {
    seq(|us|, i requires 0 <= i < |us| => if i == 0 && us[i].role == Custom("") then Assistant else us[i].role)
  }

  /** The message has the one author, ID and role that its updates give, and all their contents. */
  ghost predicate Describes(m: Reply, us: seq<Update>) {
    && Given(Authors(us), "", m.author) && Given(Ids(us), "", m.id) && Given(Roles(us), Custom(""), m.role)
    && m.contents == Streamed(us)
  }

  /** The update cannot belong to the same message as the others. */
  ghost predicate TellsApart(u: Update, us: seq<Update>) {
    Clashes(u.author, Authors(us), "") || Clashes(u.messageId, Ids(us), "") || Clashes(u.role, Roles(us), Custom(""))
  }

  function Joined(batches: seq<seq<Update>>): seq<Update> {
    if batches == [] then [] else Joined(batches[..|batches| - 1]) + batches[|batches| - 1]
  }

  ghost predicate AreBatches(messages: seq<Reply>, batches: seq<seq<Update>>) {
    && |batches| == |messages|
    && (forall i :: 0 <= i < |batches| ==> batches[i] != [] && Describes(messages[i], batches[i]))
    && (forall i :: 0 < i < |batches| ==> TellsApart(batches[i][0], batches[i - 1]))
  }

  lemma GivenClash<T>(values: seq<T>, none: T, value: T, next: T)
    requires Given(values, none, value)
    ensures Clashes(next, values, none) <==> next != none && value != none && next != value
  {
  }

  lemma GivenMore<T>(values: seq<T>, none: T, value: T, next: T)
    requires Given(values, none, value) && !Clashes(next, values, none)
    ensures Given(values + [next], none, if next != none then next else value)
  {
    GivenClash(values, none, value, next);
  }

  /** Telling apart is what the message remembers of its updates. */
  lemma ApartIsDifferent(u: Update, m: Reply, us: seq<Update>)
    requires Describes(m, us)
    ensures TellsApart(u, us) <==> IsDifferent(u, m)
  {
    GivenClash(Authors(us), "", m.author, u.author);
    GivenClash(Ids(us), "", m.id, u.messageId);
    GivenClash(Roles(us), Custom(""), m.role, u.role);
    hide Given, Clashes;
  }

  lemma DescribesNew(u: Update)
    ensures Describes(Extend(NewReply, u), [u])
  {
    var m := Extend(NewReply, u);
    assert [u][..0] == [];
    assert Streamed([u]) == Streamed([]) + u.contents == [] + u.contents == u.contents;
    assert Roles([u])[0] == m.role && Authors([u])[0] == m.author && Ids([u])[0] == m.id;
  }

  lemma DescribesMore(m: Reply, us: seq<Update>, u: Update)
    requires us != [] && Describes(m, us) && !IsDifferent(u, m)
    ensures Describes(Extend(m, u), us + [u])
  {
    ApartIsDifferent(u, m, us);
    GivenMore(Authors(us), "", m.author, u.author);
    GivenMore(Ids(us), "", m.id, u.messageId);
    GivenMore(Roles(us), Custom(""), m.role, u.role);
    assert Authors(us + [u]) == Authors(us) + [u.author];
    assert Ids(us + [u]) == Ids(us) + [u.messageId];
    assert Roles(us + [u]) == Roles(us) + [u.role];
    assert (us + [u])[..|us|] == us;
    hide Given, Clashes, TellsApart;
  }

  lemma JoinedLast(batches: seq<seq<Update>>, last: seq<Update>)
    ensures Joined(batches + [last]) == Joined(batches) + last
  {
    assert (batches + [last])[..|batches|] == batches;
  }

  /** The messages gathered from a stream are its batches: consecutive updates that agree on author,
      ID and role wherever they give one. The next message begins where an update does not agree
      with the batch before. */
  lemma {:induction false} MessagesAreBatches(us: seq<Update>) returns (batches: seq<seq<Update>>)
    ensures Joined(batches) == us && AreBatches(FoldAll(Empty, us).messages, batches)
  {
    hide *;
    if us == [] {
      batches := [];
      NoBatches();
    } else {
      var n := |us| - 1;
      var before := MessagesAreBatches(us[..n]);
      assert us == us[..n] + [us[n]];
      batches := OneMore(FoldAll(Empty, us[..n]).messages, before, us[n]);
      MessagesStep(us);
    }
  }

  lemma NoBatches()
    ensures Joined([]) == [] && AreBatches(FoldAll(Empty, []).messages, [])
  {
  }

  lemma MessagesStep(us: seq<Update>)
    requires us != []
    ensures var n := |us| - 1; FoldAll(Empty, us).messages == FoldMessages(FoldAll(Empty, us[..n]).messages, us[n])
  {
    FoldLast(Empty, us);
    hide FoldMessages, FoldAll;
  }

  lemma OneMore(messages: seq<Reply>, batches: seq<seq<Update>>, u: Update) returns (more: seq<seq<Update>>)
    requires AreBatches(messages, batches)
    ensures AreBatches(FoldMessages(messages, u), more) && Joined(more) == Joined(batches) + [u]
  {
    hide Describes, TellsApart, IsDifferent, Joined;
    if StartsMessage(messages, u) {
      more := batches + [[u]];
      JoinedLast(batches, [u]);
      DescribesNew(u);
      if messages != [] { ApartIsDifferent(u, messages[|messages| - 1], batches[|messages| - 1]); }
    } else {
      var n := |batches| - 1;
      var last := batches[n];
      more := batches[..n] + [last + [u]];
      assert batches == batches[..n] + [last];
      JoinedLast(batches[..n], last);
      JoinedLast(batches[..n], last + [u]);
      DescribesMore(messages[n], last, u);
      assert (last + [u])[0] == last[0];
    }
  }

  // ---------------------------------------------------------------- the response's own fields

  /** The last value that an update gives, or none where none does. */
  ghost predicate IsLatest<T>(us: seq<Update>, field: Update -> T, none: T, value: T) {
    || (value == none && forall i :: 0 <= i < |us| ==> field(us[i]) == none)
    || (value != none && exists k :: 0 <= k < |us| && field(us[k]) == value && forall i :: k < i < |us| ==> field(us[i]) == none)
  }

  lemma LatestMore<T>(us: seq<Update>, field: Update -> T, none: T, value: T, u: Update)
    requires IsLatest(us, field, none, value)
    ensures IsLatest(us + [u], field, none, if field(u) != none then field(u) else value)
  {
    var all := us + [u];
    assert all[|us|] == u && forall i :: 0 <= i < |us| ==> all[i] == us[i];
    if field(u) == none && value != none {
      var k :| 0 <= k < |us| && field(us[k]) == value && forall i :: k < i < |us| ==> field(us[i]) == none;
      assert field(all[k]) == value;
    }
  }

  /** Of agent, response ID, conversation and finish reason the last one given stays; the token is
      that of the last update, also when it has none. */
  lemma LatestStays(us: seq<Update>)
    ensures var g := FoldAll(Empty, us);
      && IsLatest(us, (u: Update) => u.agentId, "", g.agentId)
      && IsLatest(us, (u: Update) => u.responseId, "", g.id)
      && IsLatest(us, (u: Update) => u.conversationId, None, g.conversationId)
      && IsLatest(us, (u: Update) => u.finishReason, "", g.finishReason)
      && g.token == if us == [] then "" else us[|us| - 1].token
  {
    forall g, u { FieldsStep(g, u); }
    if us != [] { FoldLast(Empty, us); }
    hide Fold, FoldAll, IsLatest;
    NothingFolded();
    LatestOf(us, (u: Update) => u.agentId, (g: Gathered) => g.agentId, "");
    LatestOf(us, (u: Update) => u.responseId, (g: Gathered) => g.id, "");
    LatestOf(us, (u: Update) => u.conversationId, (g: Gathered) => g.conversationId, None);
    LatestOf(us, (u: Update) => u.finishReason, (g: Gathered) => g.finishReason, "");
  }

  lemma NothingFolded()
    ensures FoldAll(Empty, []) == Empty
  {
  }

  lemma {:induction false} LatestOf<T>(us: seq<Update>, field: Update -> T, kept: Gathered -> T, none: T)
    requires kept(Empty) == none && forall g, u :: kept(Fold(g, u)) == if field(u) != none then field(u) else kept(g)
    ensures IsLatest(us, field, none, kept(FoldAll(Empty, us)))
  {
    hide Fold, FoldAll;
    if us == [] {
      NothingFolded();
    } else {
      var n := |us| - 1;
      LatestOf(us[..n], field, kept, none);
      FoldLast(Empty, us);
      assert us == us[..n] + [us[n]];
      LatestMore(us[..n], field, none, kept(FoldAll(Empty, us[..n])), us[n]);
    }
  }

  lemma FieldsStep(g: Gathered, u: Update)
    ensures var h := Fold(g, u);
      && h.agentId == (if u.agentId != "" then u.agentId else g.agentId)
      && h.id == (if u.responseId != "" then u.responseId else g.id)
      && h.conversationId == (if u.conversationId != None then u.conversationId else g.conversationId)
      && h.finishReason == (if u.finishReason != "" then u.finishReason else g.finishReason)
      && h.token == u.token
  {
  }
}
