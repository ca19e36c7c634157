/** Folding streamed updates into a response, and turning a response into updates. */
module Responses {
  import opened Messages
  import opened CoalesceAll

  /** A message of a response. The empty role is `Custom("")`. */
  datatype Reply = Reply(role: Role, author: string, id: string, contents: seq<Content>)

  datatype Update = Update(
    agentId: string, messageId: string, responseId: string, conversationId: Option<string>, finishReason: string,
    author: string, role: Role, token: string, contents: seq<Content>)

  /** The state of a response. */
  datatype Gathered = Gathered(
    messages: seq<Reply>, agentId: string, id: string, conversationId: Option<string>, finishReason: string,
    token: string)

  const NO_ROLE := Custom("")

  const Empty := Gathered([], "", "", None, "", "")

  function Or(a: string, b: string): string { if a != "" then a else b }

  function OrRole(a: Role, b: Role): Role { if a != NO_ROLE then a else b }

  /** Two values tell messages apart only when both are given. */
  predicate IsDifferent(u: Update, m: Reply) {
    || (u.author != "" && m.author != "" && u.author != m.author)
    || (u.messageId != "" && m.id != "" && u.messageId != m.id)
    || (u.role != NO_ROLE && m.role != NO_ROLE && u.role != m.role)
  }

  predicate StartsMessage(messages: seq<Reply>, u: Update) {
    messages == [] || IsDifferent(u, messages[|messages| - 1])
  }

  function Extend(m: Reply, u: Update): Reply {
    Reply(OrRole(u.role, m.role), Or(u.author, m.author), Or(u.messageId, m.id), m.contents + u.contents)
  }

  const NewReply := Reply(Assistant, "", "", [])

  function FoldMessages(messages: seq<Reply>, u: Update): seq<Reply> {
    if StartsMessage(messages, u) then messages + [Extend(NewReply, u)]
    else messages[..|messages| - 1] + [Extend(messages[|messages| - 1], u)]
  }

  function Fold(g: Gathered, u: Update): Gathered {
    Gathered(FoldMessages(g.messages, u), Or(u.agentId, g.agentId), Or(u.responseId, g.id),
             if u.conversationId.Some? then u.conversationId else g.conversationId,
             Or(u.finishReason, g.finishReason), u.token)
  }

  function FoldAll(g: Gathered, us: seq<Update>): Gathered {
    if us == [] then g else Fold(FoldAll(g, us[..|us| - 1]), us[|us| - 1])
  }

  function CoalesceReply(m: Reply): Reply {
    m.(contents := Coalesce(m.contents))
  }

  function CoalesceReplies(g: Gathered): Gathered {
    g.(messages := seq(|g.messages|, i requires 0 <= i < |g.messages| => CoalesceReply(g.messages[i])))
  }

  /** A response that is filled update by update. */
  class Response {
    var messages: seq<Reply>
    var agentId: string
    var id: string
    var conversationId: Option<string>
    var finishReason: string
    var token: string

    function View(): Gathered
      reads this
    {
      Gathered(messages, agentId, id, conversationId, finishReason, token)
    }

    constructor ()
      ensures View() == Empty
    {
      messages, agentId, id, conversationId, finishReason, token := [], "", "", None, "", "";
    }

    /** Appends a fresh message unless the update continues the last one. */
    method TargetMessage(u: Update) returns (at: nat)
      modifies this`messages
      ensures at < |messages| && at == |messages| - 1
      ensures messages == if StartsMessage(old(messages), u) then old(messages) + [NewReply] else old(messages)
    {
      if |messages| > 0 {
        var last := messages[|messages| - 1];
        if !IsDifferent(u, last) { return |messages| - 1; }
      }
      messages := messages + [NewReply];
      return |messages| - 1;
    }

    method Update(u: Update)
      modifies this
      ensures View() == Fold(old(View()), u)
    {
      var at := TargetMessage(u);
      var msg := messages[at];
      msg := msg.(author := Or(u.author, msg.author));
      msg := msg.(role := OrRole(u.role, msg.role));
      msg := msg.(id := Or(u.messageId, msg.id));
      msg := msg.(contents := msg.contents + u.contents);
      messages := messages[at := msg];
      agentId := Or(u.agentId, agentId);
      id := Or(u.responseId, id);
      if u.conversationId.Some? { conversationId := u.conversationId; }
      finishReason := Or(u.finishReason, finishReason);
      token := u.token;
    }

    /** Gathers the updates of a stream that reports no error. */
    method UpdateAll(us: seq<Update>)
      modifies this
      ensures View() == FoldAll(old(View()), us)
    {
      for i := 0 to |us|
        invariant View() == FoldAll(old(View()), us[..i])
      {
        assert us[..i + 1][..i] == us[..i];
        Update(us[i]);
      }
      assert us[..|us|] == us;
    }

    method CoalesceMessages()
      modifies this`messages
      ensures View() == CoalesceReplies(old(View()))
    {
      for i := 0 to |messages|
        invariant |messages| == |old(messages)|
        invariant forall k :: 0 <= k < |messages| ==>
          messages[k] == if k < i then CoalesceReply(old(messages)[k]) else old(messages)[k]
      {
        messages := messages[i := CoalesceReply(messages[i])];
      }
    }

    method ToUpdates() returns (us: seq<Update>)
      ensures us == UpdatesOf(View())
    {
      us := [];
      for i := 0 to |messages|
        invariant us == MessageUpdates(View(), i)
      {
        us := us + [UpdateFor(View(), i)];
      }
      if token != "" { us := us + [MetadataUpdate(View())]; }
    }
  }

  /** Gathers a stream and coalesces the messages. */
  method Collect(us: seq<Update>) returns (r: Response)
    ensures fresh(r) && r.View() == CoalesceReplies(FoldAll(Empty, us))
  {
    r := new Response();
    r.UpdateAll(us);
    r.CoalesceMessages();
  }

  // ---------------------------------------------------------------- conservation

  function AllContents(messages: seq<Reply>): seq<Content> {
    if messages == [] then [] else AllContents(messages[..|messages| - 1]) + messages[|messages| - 1].contents
  }

  function Streamed(us: seq<Update>): seq<Content> {
    if us == [] then [] else Streamed(us[..|us| - 1]) + us[|us| - 1].contents
  }

  lemma FoldContents(messages: seq<Reply>, u: Update)
    ensures AllContents(FoldMessages(messages, u)) == AllContents(messages) + u.contents
  {
    var w := FoldMessages(messages, u);
    if StartsMessage(messages, u) {
      assert w[..|w| - 1] == messages;
    } else {
      assert w[..|w| - 1] == messages[..|messages| - 1];
    }
  }

  /** Before coalescing, the messages hold exactly the contents of the updates, in order. */
  lemma {:induction false} ContentsGathered(us: seq<Update>)
    ensures AllContents(FoldAll(Empty, us).messages) == Streamed(us)
  {
    if us != [] {
      ContentsGathered(us[..|us| - 1]);
      FoldContents(FoldAll(Empty, us[..|us| - 1]).messages, us[|us| - 1]);
    }
  }

  // ---------------------------------------------------------------- chunking

  /** One update in two parts with the same identity fields does what the whole does. */
  lemma SplitUpdate(g: Gathered, u: Update, a: seq<Content>, b: seq<Content>)
    requires u.contents == a + b
    ensures Fold(Fold(g, u.(contents := a)), u.(contents := b)) == Fold(g, u)
  {
    var first, second := u.(contents := a), u.(contents := b);
    var w := FoldMessages(g.messages, first);
    var last := w[|w| - 1];
    assert !IsDifferent(second, last);
    var base := if StartsMessage(g.messages, u) then NewReply else g.messages[|g.messages| - 1];
    assert last == Extend(base, first);
    assert base.contents + a + b == base.contents + (a + b);
    assert Extend(last, second) == Extend(base, u);
  }

  lemma {:induction false} FoldAllConcat(g: Gathered, a: seq<Update>, b: seq<Update>)
    ensures FoldAll(g, a + b) == FoldAll(FoldAll(g, a), b)
  {
    if b == [] {
      assert a + b == a;
    } else {
      var n, ab := |b| - 1, a + b;
      FoldAllConcat(g, a, b[..n]);
      FoldLast(g, ab);
      FoldLast(FoldAll(g, a), b);
      hide FoldAll, Fold;
      assert ab[..|ab| - 1] == a + b[..n] && ab[|ab| - 1] == b[n];
    }
  }

  lemma FoldLast(g: Gathered, us: seq<Update>)
    requires us != []
    ensures FoldAll(g, us) == Fold(FoldAll(g, us[..|us| - 1]), us[|us| - 1])
  {
  }

  /** Wherever in a stream an update is split, the gathered response is the same. */
  lemma SplitAnywhere(before: seq<Update>, u: Update, after: seq<Update>, a: seq<Content>, b: seq<Content>)
    requires u.contents == a + b
    ensures FoldAll(Empty, before + [u.(contents := a), u.(contents := b)] + after)
         == FoldAll(Empty, before + [u] + after)
  {
    var two := [u.(contents := a), u.(contents := b)];
    FoldAllConcat(Empty, before + two, after);
    FoldAllConcat(Empty, before, two);
    FoldAllConcat(Empty, before + [u], after);
    FoldAllConcat(Empty, before, [u]);
    SplitUpdate(FoldAll(Empty, before), u, a, b);
    OneUpdate(FoldAll(Empty, before), u);
    TwoUpdates(FoldAll(Empty, before), two[0], two[1]);
  }

  lemma OneUpdate(g: Gathered, u: Update)
    ensures FoldAll(g, [u]) == Fold(g, u)
  {
    assert [u][..0] == [];
  }

  lemma TwoUpdates(g: Gathered, u: Update, v: Update)
    ensures FoldAll(g, [u, v]) == Fold(Fold(g, u), v)
  {
    assert [u, v][..1] == [u];
    OneUpdate(g, u);
  }

  // ---------------------------------------------------------------- there and back

  function UpdateFor(g: Gathered, i: nat): Update
    requires i < |g.messages|
  {
    var m := g.messages[i];
    Update(g.agentId, m.id, g.id, g.conversationId, g.finishReason, m.author, m.role, "", m.contents)
  }

  function MetadataUpdate(g: Gathered): Update {
    Update(g.agentId, "", g.id, g.conversationId, "", "", NO_ROLE, g.token, [])
  }

  function MessageUpdates(g: Gathered, n: nat): seq<Update>
    requires n <= |g.messages|
  {
    seq(n, i requires 0 <= i < n => UpdateFor(g, i))
  }

  function UpdatesOf(g: Gathered): seq<Update> {
    MessageUpdates(g, |g.messages|) + if g.token != "" then [MetadataUpdate(g)] else []
  }

  /** Every message has a role, neighbours can be told apart, and metadata has a message to
      travel with. */
  ghost predicate IsFaithful(g: Gathered) {
    && (forall i :: 0 <= i < |g.messages| ==> g.messages[i].role != NO_ROLE)
    && (forall i :: 0 < i < |g.messages| ==> IsDifferent(UpdateFor(g, i), g.messages[i - 1]))
    && (g.messages == [] ==> g.token == "")
  }

  /** A message and its update carry the same. */
  lemma OwnUpdate(g: Gathered, i: nat)
    requires i < |g.messages| && g.messages[i].role != NO_ROLE
    ensures Extend(NewReply, UpdateFor(g, i)) == g.messages[i]
  {
    assert [] + g.messages[i].contents == g.messages[i].contents;
  }

  lemma UpdatesStep(g: Gathered, n: nat)
    requires 0 < n <= |g.messages|
    ensures FoldAll(Empty, MessageUpdates(g, n)) == Fold(FoldAll(Empty, MessageUpdates(g, n - 1)), UpdateFor(g, n - 1))
  {
    assert MessageUpdates(g, n)[..n - 1] == MessageUpdates(g, n - 1);
  }

  /** The first `n` messages are back, and with them all fields but the token. */
  ghost predicate BackUpTo(h: Gathered, g: Gathered, n: nat)
    requires n <= |g.messages|
  {
    h.messages == g.messages[..n] && if n == 0 then h == Empty else h.(messages := g.messages, token := g.token) == g
  }

  lemma {:induction false} FaithfulPrefix(g: Gathered, n: nat)
    requires n <= |g.messages| && IsFaithful(g)
    ensures BackUpTo(FoldAll(Empty, MessageUpdates(g, n)), g, n)
  {
    if n > 0 {
      UpdatesStep(g, n);
      FaithfulPrefix(g, n - 1);
      hide FoldAll, MessageUpdates, IsFaithful;
      FaithfulFold(FoldAll(Empty, MessageUpdates(g, n - 1)), g, n);
    } else {
      assert MessageUpdates(g, 0) == [];
    }
  }

  lemma FaithfulFold(h: Gathered, g: Gathered, n: nat)
    requires IsFaithful(g) && 0 < n <= |g.messages| && BackUpTo(h, g, n - 1)
    ensures BackUpTo(Fold(h, UpdateFor(g, n - 1)), g, n)
  {
    OwnUpdate(g, n - 1);
    if n > 1 {
      assert h.messages[|h.messages| - 1] == g.messages[n - 2];
      assert IsDifferent(UpdateFor(g, n - 1), g.messages[n - 2]);
    }
    hide Extend, IsDifferent, IsFaithful;
    assert g.messages[..n] == g.messages[..n - 1] + [g.messages[n - 1]];
  }

  /** The metadata update adds nothing to the messages when there are any. */
  lemma MetadataFolded(g: Gathered, h: Gathered)
    requires h.messages != []
    ensures FoldMessages(h.messages, MetadataUpdate(g)) == h.messages
  {
    var last := h.messages[|h.messages| - 1];
    assert last.contents + [] == last.contents;
    assert h.messages[..|h.messages| - 1] + [last] == h.messages;
  }

  lemma WithMetadata(g: Gathered)
    ensures var us := MessageUpdates(g, |g.messages|);
      FoldAll(Empty, UpdatesOf(g))
      == if g.token == "" then FoldAll(Empty, us) else Fold(FoldAll(Empty, us), MetadataUpdate(g))
  {
    var us := MessageUpdates(g, |g.messages|);
    if g.token != "" {
      FoldAllConcat(Empty, us, [MetadataUpdate(g)]);
      OneUpdate(FoldAll(Empty, us), MetadataUpdate(g));
    } else {
      assert UpdatesOf(g) == us;
    }
  }

  /** Turned into updates and gathered again, a faithful response comes back as it was: all
      messages and, when there are any, all its fields with the continuation token. */
  lemma FaithfulComesBack(g: Gathered)
    requires IsFaithful(g)
    ensures FoldAll(Empty, UpdatesOf(g)).messages == g.messages
    ensures g.messages != [] ==> FoldAll(Empty, UpdatesOf(g)) == g
  {
    var n := |g.messages|;
    FaithfulPrefix(g, n);
    WithMetadata(g);
    assert g.messages[..n] == g.messages;
    if n > 0 {
      UpdatesStep(g, n);
      hide FoldAll, MessageUpdates, UpdatesOf;
      MetadataFolded(g, FoldAll(Empty, MessageUpdates(g, n)));
    }
  }

  lemma {:induction false} FoldCount(us: seq<Update>)
    ensures |FoldAll(Empty, us).messages| <= |us|
    ensures us != [] ==> FoldAll(Empty, us).messages != []
  {
    if us != [] { FoldCount(us[..|us| - 1]); }
  }

  lemma FullStep(g: Gathered, n: nat)
    requires 0 < n <= |g.messages| && |FoldAll(Empty, MessageUpdates(g, n)).messages| == n
    ensures var m, u := FoldAll(Empty, MessageUpdates(g, n - 1)).messages, UpdateFor(g, n - 1);
      && |m| == n - 1 && FoldAll(Empty, MessageUpdates(g, n)).messages == m + [Extend(NewReply, u)]
      && (n > 1 ==> IsDifferent(u, m[n - 2]))
  {
    UpdatesStep(g, n);
    FoldCount(MessageUpdates(g, n - 1));
    hide FoldAll, MessageUpdates, Extend, UpdateFor, IsDifferent;
  }

  /** As long as every update starts a message, the messages are those of the updates. */
  lemma {:induction false} FullCount(g: Gathered, n: nat)
    requires n <= |g.messages| && |FoldAll(Empty, MessageUpdates(g, n)).messages| == n
    ensures forall i :: 0 <= i < n ==> StartedBy(FoldAll(Empty, MessageUpdates(g, n)).messages, g, i)
  {
    if n > 0 {
      hide FoldAll, MessageUpdates, StartedBy;
      FullStep(g, n);
      FullCount(g, n - 1);
      var m, w := FoldAll(Empty, MessageUpdates(g, n - 1)).messages, FoldAll(Empty, MessageUpdates(g, n)).messages;
      forall i | 0 <= i < n ensures StartedBy(w, g, i) { StartedStep(m, w, g, n, i); }
    }
  }

  /** The message at `i` is what its own update makes, which no update continued. */
  ghost predicate StartedBy(m: seq<Reply>, g: Gathered, i: int) {
    && 0 <= i < |m| && i < |g.messages| && m[i] == Extend(NewReply, UpdateFor(g, i))
    && (i > 0 ==> IsDifferent(UpdateFor(g, i), m[i - 1]))
  }

  lemma StartedStep(m: seq<Reply>, w: seq<Reply>, g: Gathered, n: nat, i: nat)
    requires i < n <= |g.messages| && |m| == n - 1 && w == m + [Extend(NewReply, UpdateFor(g, n - 1))]
    requires n > 1 ==> IsDifferent(UpdateFor(g, n - 1), m[n - 2])
    requires i < n - 1 ==> StartedBy(m, g, i)
    ensures StartedBy(w, g, i)
  {
    hide Extend, UpdateFor, IsDifferent;
  }

  /** The messages come back if and only if the response is faithful. */
  lemma ComesBackIff(g: Gathered)
    ensures FoldAll(Empty, UpdatesOf(g)).messages == g.messages <==> IsFaithful(g)
  {
    hide FoldAll, MessageUpdates, UpdatesOf;
    if IsFaithful(g) { FaithfulComesBack(g); }
    if FoldAll(Empty, UpdatesOf(g)).messages == g.messages {
      MetadataAddsNothing(g);
      FullCount(g, |g.messages|);
      forall i | 0 <= i < |g.messages|
        ensures g.messages[i].role != NO_ROLE && (i > 0 ==> IsDifferent(UpdateFor(g, i), g.messages[i - 1]))
      {
        assert StartedBy(g.messages, g, i);
      }
    }
  }

  /** The whole response comes back if and only if it is faithful and has a message to carry its
      fields, or has nothing at all. */
  lemma WholeComesBackIff(g: Gathered)
    ensures FoldAll(Empty, UpdatesOf(g)) == g <==> g == Empty || (g.messages != [] && IsFaithful(g))
  {
    hide MessageUpdates;
    ComesBackIff(g);
    if IsFaithful(g) { FaithfulComesBack(g); }
    if g.messages == [] && g.token == "" { assert MessageUpdates(g, 0) == []; }
  }

  lemma MetadataAddsNothing(g: Gathered)
    requires FoldAll(Empty, UpdatesOf(g)).messages == g.messages
    ensures FoldAll(Empty, MessageUpdates(g, |g.messages|)).messages == g.messages
    ensures g.messages == [] ==> g.token == ""
  {
    var h := FoldAll(Empty, MessageUpdates(g, |g.messages|));
    WithMetadata(g);
    FoldCount(MessageUpdates(g, |g.messages|));
    hide FoldAll, MessageUpdates, UpdatesOf;
    if h.messages != [] { MetadataFolded(g, h); }
  }
}
