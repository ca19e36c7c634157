/** Messages and their content items, shared by the compaction and coalescing models. */
module Messages {

  datatype Option<+T> = None | Some(value: T)

  /** Roles are open strings in the program; only four of them are special. */
  datatype Role = System | User | Assistant | Tool | Custom(name: string)

  datatype Header = Header(properties: Option<map<string, string>>, annotations: Option<seq<string>>)

  type Int64 = x: int | -0x8000_0000_0000_0000 <= x < 0x8000_0000_0000_0000

  /** Token usage in 64-bit counters. */
  datatype UsageDetails = UsageDetails(
    input: Int64, output: Int64, total: Int64, cached: Int64, reasoning: Int64,
    additional: Option<map<string, Int64>>)

  /** One content item. `Absent` is a nil entry of a content slice; `Other` stands for the
      item kinds that no modelled operation inspects. */
  datatype Content =
    | Absent
    | Text(header: Header, text: string)
    | Reasoning(header: Header, text: string, protectedData: string)
    | Data(header: Header, name: string, data: string, mediaType: string)
    | FunctionCall(header: Header, callId: string, name: string, arguments: string, informationalOnly: bool)
    | FunctionResult(header: Header, callId: string, result: string)
    | ImageResult(header: Header, callId: string, outputs: seq<Content>)
    | WebSearchCall(header: Header, callId: string, queries: seq<string>)
    | InterpreterCall(header: Header, callId: string, inputs: seq<Content>)
    | InterpreterResult(header: Header, callId: string, outputs: seq<Content>)
    | Usage(header: Header, details: UsageDetails)
    | Other(header: Header, tag: string, payload: string)

  datatype Message = Message(role: Role, contents: seq<Content>, id: string, author: string, summaryFlag: bool)

  /** Characters that trimming removes. */
  predicate IsSpace(c: char) {
    c in {'\t', '\n', '\U{B}', '\U{C}', '\r', ' ', '\U{85}', '\U{A0}', '\U{1680}', '\U{2028}', '\U{2029}',
          '\U{202F}', '\U{205F}', '\U{3000}'} || '\U{2000}' <= c <= '\U{200A}'
  }

  predicate HasToolCalls(m: Message) {
    exists c :: c in m.contents && c.FunctionCall?
  }

  /** Vacuously true of a message without contents, as in the program. */
  predicate HasOnlyReasoning(m: Message) {
    forall c :: c in m.contents ==> c.Reasoning?
  }

  predicate IsToolCaller(m: Message) {
    m.role.Assistant? && HasToolCalls(m)
  }

  predicate IsBareReasoning(m: Message) {
    m.role.Assistant? && HasOnlyReasoning(m)
  }

  /** Headers never take part in content equality. */
  predicate ContentEqual(l: Content, r: Content) {
    match (l, r)
    case (Absent, Absent) => true
    case (Text(_, a), Text(_, b)) => a == b
    case (Reasoning(_, a, p), Reasoning(_, b, q)) => a == b && p == q
    case (Data(_, n, d, m), Data(_, n', d', m')) => n == n' && d == d' && m == m'
    case (FunctionCall(_, i, n, a, f), FunctionCall(_, i', n', a', f')) => i == i' && n == n' && a == a' && f == f'
    case (FunctionResult(_, i, x), FunctionResult(_, i', x')) => i == i' && x == x'
    case (ImageResult(_, i, o), ImageResult(_, i', o')) => i == i' && ContentsEqual(o, o')
    case (WebSearchCall(_, i, q), WebSearchCall(_, i', q')) => i == i' && q == q'
    case (InterpreterCall(_, i, o), InterpreterCall(_, i', o')) => i == i' && ContentsEqual(o, o')
    case (InterpreterResult(_, i, o), InterpreterResult(_, i', o')) => i == i' && ContentsEqual(o, o')
    case (Usage(_, u), Usage(_, u')) => u == u'
    case (Other(_, t, p), Other(_, t', p')) => t == t' && p == p'
    case _ => false
  }

  predicate ContentsEqual(l: seq<Content>, r: seq<Content>) {
    |l| == |r| && forall i :: 0 <= i < |l| ==> ContentEqual(l[i], r[i])
  }

  /** Two messages that both carry an ID are compared by it alone. */
  predicate MessageContentEqual(l: Message, r: Message) {
    if l.id != "" && r.id != "" then l.id == r.id
    else l.role == r.role && l.author == r.author && ContentsEqual(l.contents, r.contents)
  }

  lemma {:induction false} ContentEqualReflexive(c: Content)
    ensures ContentEqual(c, c)
  {
    match c
    case ImageResult(_, _, o) =>
      forall i | 0 <= i < |o| ensures ContentEqual(o[i], o[i]) { ContentEqualReflexive(o[i]); }
    case InterpreterCall(_, _, o) =>
      forall i | 0 <= i < |o| ensures ContentEqual(o[i], o[i]) { ContentEqualReflexive(o[i]); }
    case InterpreterResult(_, _, o) =>
      forall i | 0 <= i < |o| ensures ContentEqual(o[i], o[i]) { ContentEqualReflexive(o[i]); }
    case _ =>
  }

  const NoHeader := Header(None, None)

  /** What an item says, without properties and annotations at any depth. */
  function Bare(c: Content): Content {
    match c
    case Absent => Absent
    case ImageResult(_, id, o) => ImageResult(NoHeader, id, BareAll(o))
    case InterpreterCall(_, id, o) => InterpreterCall(NoHeader, id, BareAll(o))
    case InterpreterResult(_, id, o) => InterpreterResult(NoHeader, id, BareAll(o))
    case Text(_, t) => Text(NoHeader, t)
    case Reasoning(_, t, p) => Reasoning(NoHeader, t, p)
    case Data(_, n, d, m) => Data(NoHeader, n, d, m)
    case FunctionCall(_, id, n, a, i) => FunctionCall(NoHeader, id, n, a, i)
    case FunctionResult(_, id, r) => FunctionResult(NoHeader, id, r)
    case WebSearchCall(_, id, q) => WebSearchCall(NoHeader, id, q)
    case Usage(_, u) => Usage(NoHeader, u)
    case Other(_, t, p) => Other(NoHeader, t, p)
  }

  function BareAll(s: seq<Content>): (r: seq<Content>)
    ensures |r| == |s| && forall i :: 0 <= i < |s| ==> r[i] == Bare(s[i])
  {
    seq(|s|, i requires 0 <= i < |s| => Bare(s[i]))
  }

  /** Items match if and only if they say the same, whatever their headers. */
  lemma {:induction false} ContentEqualIff(l: Content, r: Content)
    ensures ContentEqual(l, r) <==> Bare(l) == Bare(r)
    decreases l, 1
  {
    match (l, r)
    case (ImageResult(_, _, a), ImageResult(_, _, b)) => AllEqualIff(l, a, b);
    case (InterpreterCall(_, _, a), InterpreterCall(_, _, b)) => AllEqualIff(l, a, b);
    case (InterpreterResult(_, _, a), InterpreterResult(_, _, b)) => AllEqualIff(l, a, b);
    case _ =>
  }

  lemma {:induction false} AllEqualIff(owner: Content, a: seq<Content>, b: seq<Content>)
    requires forall c :: c in a ==> c < owner
    ensures ContentsEqual(a, b) <==> BareAll(a) == BareAll(b)
    decreases owner, 0
  {
    forall i | 0 <= i < |a| && i < |b| ensures ContentEqual(a[i], b[i]) <==> Bare(a[i]) == Bare(b[i]) {
      assert a[i] in a;
      ContentEqualIff(a[i], b[i]);
    }
    if BareAll(a) == BareAll(b) {
      assert |a| == |BareAll(a)| == |b|;
      forall i | 0 <= i < |a| ensures Bare(a[i]) == Bare(b[i]) { assert BareAll(a)[i] == BareAll(b)[i]; }
    }
  }

  /** Messages that both have IDs match by these alone; others if role, author and what their
      contents say are the same. */
  lemma MessageEqualIff(l: Message, r: Message)
    ensures MessageContentEqual(l, r) <==>
      if l.id != "" && r.id != "" then l.id == r.id
      else l.role == r.role && l.author == r.author && BareAll(l.contents) == BareAll(r.contents)
  {
    var o := InterpreterCall(NoHeader, "", l.contents);
    AllEqualIff(o, l.contents, r.contents);
  }

  /** A message always matches itself, which is what lets an index find its own last message. */
  lemma MessageEqualReflexive(m: Message)
    ensures MessageContentEqual(m, m)
  {
    forall i | 0 <= i < |m.contents| ensures ContentEqual(m.contents[i], m.contents[i]) {
      ContentEqualReflexive(m.contents[i]);
    }
  }
}
