/** The workflow builder: registration of executors and edges, and validation of the graph. */
module Building {
  import opened Messages

  /** The message types of an executor, by number. */
  datatype Protocol = Protocol(accepts: seq<nat>, sends: seq<nat>, acceptsAll: bool)

  /** An executor binding. A placeholder has no factory; `implementation` is the implementation
      ID after inference; `instance` is the raw value, when there is one; `protocol` is what an
      instance describes itself to be, when one can be made and asked. */
  datatype Binding = Binding(
    id: string, placeholder: bool, implementation: string, instance: Option<int>, comparable: bool,
    ports: seq<Port>, protocol: Option<Protocol>)

  /** `typed` says that the port has its message types. */
  datatype Port = Port(id: string, typed: bool, request: string, response: string)

  datatype Edge = Edge(index: int, sources: seq<string>, sinks: seq<string>, conditional: bool)

  datatype BuildError =
    | EmptyId | NotComparable(id: string) | OtherImplementation(id: string) | OtherInstance(id: string)
    | BadPort(id: string) | PortConflict(id: string) | IsPlaceholder(id: string)
    | DuplicateEdge(source: string, sink: string) | NoTargets | NoSources
    | Unbound(ids: set<string>) | Orphaned(ids: set<string>) | IncompatibleTypes(source: string, sink: string)

  type Edges = map<string, seq<Edge>>

  function EdgesFrom(edges: Edges, id: string): seq<Edge> {
    if id in edges then edges[id] else []
  }

  predicate Leads(edges: Edges, a: string, b: string) {
    exists e :: e in EdgesFrom(edges, a) && b in e.sinks
  }

  /** A walk along edges. */
  ghost predicate IsWalk(edges: Edges, p: seq<string>) {
    p != [] && forall i :: 0 < i < |p| ==> Leads(edges, p[i - 1], p[i])
  }

  ghost predicate Reachable(edges: Edges, a: string, b: string) {
    exists p :: IsWalk(edges, p) && p[0] == a && p[|p| - 1] == b
  }

  /** Every executor an edge starts or ends at is known. */
  ghost predicate Covered(edges: Edges, known: set<string>) {
    forall a :: a in edges ==> a in known && forall e :: e in edges[a] ==> forall b :: b in e.sinks ==> b in known
  }

  type Bindings = map<string, Binding>

  function ProtocolOf(bindings: Bindings, id: string): Option<Protocol> {
    if id in bindings then bindings[id].protocol else None
  }

  /** A source that declares what it sends and a sink that declares what it accepts must have a
      pair of compatible types; everything else may be connected. */
  ghost predicate CanDeliver(bindings: Bindings, source: string, sink: string, compatible: (nat, nat) -> bool) {
    var p, q := ProtocolOf(bindings, source), ProtocolOf(bindings, sink);
    p.Some? && p.value.sends != [] && q.Some? && !q.value.acceptsAll && q.value.accepts != [] ==>
      exists a, b :: a in p.value.sends && b in q.value.accepts && compatible(a, b)
  }

  /** Every sink of every edge listed at `source` can be delivered to. */
  ghost predicate DeliversFrom(bindings: Bindings, edges: Edges, source: string, compatible: (nat, nat) -> bool) {
    forall e, b :: e in EdgesFrom(edges, source) && b in e.sinks ==> CanDeliver(bindings, source, b, compatible)
  }

  ghost predicate AllDeliver(bindings: Bindings, edges: Edges, compatible: (nat, nat) -> bool) {
    forall id :: id in edges ==> DeliversFrom(bindings, edges, id, compatible)
  }

  ghost predicate AllReachable(bindings: Bindings, edges: Edges, start: string) {
    forall id :: id in bindings ==> Reachable(edges, start, id)
  }

  /** Why a binding cannot be tracked, apart from its ports. */
  function TrackError(bindings: map<string, Binding>, b: Binding): Option<BuildError> {
    if b.id == "" then Some(EmptyId)
    else if b.instance.Some? && !b.comparable then Some(NotComparable(b.id))
    else if b.placeholder || b.id !in bindings then None
    else if bindings[b.id].implementation != b.implementation then Some(OtherImplementation(b.id))
    else if bindings[b.id].instance.Some? && bindings[b.id].instance != b.instance then Some(OtherInstance(b.id))
    else None
  }

  /** The registrations fit together: they are named, instances can be compared, and all real ones of
      an ID have one implementation and the instance of the first, if that has one. */
  ghost predicate Fit(tracked: seq<Binding>) {
    && (forall b :: b in tracked ==> b.id != "" && (b.instance.Some? ==> b.comparable))
    && (forall i, j :: 0 <= i < j < |tracked| && SameReal(tracked[i], tracked[j]) ==>
          tracked[i].implementation == tracked[j].implementation)
    && (forall i, j :: 0 <= i < j < |tracked| && SameReal(tracked[i], tracked[j]) && IsFirstReal(tracked, i) && tracked[i].instance.Some? ==>
          tracked[i].instance == tracked[j].instance)
  }

  predicate SameReal(a: Binding, b: Binding) {
    a.id == b.id && !a.placeholder && !b.placeholder
  }

  ghost predicate IsFirstReal(tracked: seq<Binding>, i: nat)
    requires i < |tracked|
  {
    forall k :: 0 <= k < i ==> !SameReal(tracked[k], tracked[i])
  }

  /** The ports after tracking a list of them, and the first complaint. */
  function TrackPorts(ports: map<string, Port>, more: seq<Port>): (map<string, Port>, Option<BuildError>)
    decreases |more|
  {
    if more == [] then (ports, None)
    else if more[0].id == "" || !more[0].typed then (ports, Some(BadPort(more[0].id)))
    else if more[0].id in ports && ports[more[0].id] != more[0] then (ports, Some(PortConflict(more[0].id)))
    else TrackPorts(ports[more[0].id := more[0]], more[1..])
  }

  function Names(bs: seq<Binding>): set<string> {
    set b | b in bs :: b.id
  }

  lemma OneFurther(before: seq<Binding>, bs: seq<Binding>, i: nat)
    requires i < |bs|
    ensures before + bs[..i + 1] == before + bs[..i] + [bs[i]]
    ensures Names(bs[..i + 1]) == Names(bs[..i]) + {bs[i].id}
  {
    assert bs[..i + 1] == bs[..i] + [bs[i]];
    assert forall b :: b in bs[..i] + [bs[i]] <==> b in bs[..i] || b == bs[i];
  }

  /** The first real binding among the registrations of an ID. */
  function FirstReal(tracked: seq<Binding>, id: string): Option<Binding> {
    if tracked == [] then None
    else
      var earlier, last := FirstReal(tracked[..|tracked| - 1], id), tracked[|tracked| - 1];
      if earlier.Some? || last.id != id || last.placeholder then earlier else Some(last)
  }

  /** What a list of registrations amounts to: an ID is bound to the first real binding it was
      given, wherever that came among placeholders, and unbound while it has only placeholders. */
  ghost predicate Reflects(bindings: map<string, Binding>, unbound: set<string>, tracked: seq<Binding>) {
    && (forall id :: FirstReal(tracked, id) == if id in bindings then Some(bindings[id]) else None)
    && (forall id :: id in unbound <==> id in Ids(tracked) && FirstReal(tracked, id).None?)
  }

  /** Registering an ID that is bound changes nothing. */
  lemma ReflectsBound(bindings: map<string, Binding>, unbound: set<string>, tracked: seq<Binding>, b: Binding)
    requires Reflects(bindings, unbound, tracked) && b.id in bindings
    ensures Reflects(bindings, unbound, tracked + [b])
  {
    OneMoreRegistered(bindings, unbound, tracked, b);
  }

  /** A placeholder for an ID that is not bound leaves it unbound. */
  lemma ReflectsPlaceholder(bindings: map<string, Binding>, unbound: set<string>, tracked: seq<Binding>, b: Binding)
    requires Reflects(bindings, unbound, tracked) && b.id !in bindings && b.placeholder
    ensures Reflects(bindings, unbound + {b.id}, tracked + [b])
  {
    OneMoreRegistered(bindings, unbound, tracked, b);
  }

  /** The first real binding of an ID binds it. */
  lemma ReflectsReal(bindings: map<string, Binding>, unbound: set<string>, tracked: seq<Binding>, b: Binding)
    requires Reflects(bindings, unbound, tracked) && b.id !in bindings && !b.placeholder
    ensures Reflects(bindings[b.id := b], unbound - {b.id}, tracked + [b])
  {
    OneMoreRegistered(bindings, unbound, tracked, b);
  }

  lemma OneMoreRegistered(bindings: map<string, Binding>, unbound: set<string>, tracked: seq<Binding>, b: Binding)
    requires Reflects(bindings, unbound, tracked)
    ensures Ids(tracked + [b]) == Ids(tracked) + [b.id]
    ensures FirstReal(tracked, b.id) == if b.id in bindings then Some(bindings[b.id]) else None
    ensures forall id :: id != b.id || b.placeholder ==> FirstReal(tracked + [b], id) == FirstReal(tracked, id)
    ensures FirstReal(tracked, b.id).Some? ==> FirstReal(tracked + [b], b.id) == FirstReal(tracked, b.id)
    ensures FirstReal(tracked, b.id).None? && !b.placeholder ==> FirstReal(tracked + [b], b.id) == Some(b)
  {
    assert (tracked + [b])[..|tracked|] == tracked;
  }

  /** All IDs registered are known, and no others. */
  lemma ReflectsKnown(bindings: map<string, Binding>, unbound: set<string>, tracked: seq<Binding>)
    requires Reflects(bindings, unbound, tracked)
    ensures bindings.Keys !! unbound
    ensures forall id :: id in bindings.Keys + unbound <==> id in Ids(tracked)
    ensures forall id :: id in bindings ==> bindings[id].id == id && !bindings[id].placeholder && bindings[id] in tracked
  {
    forall id {:trigger FirstReal(tracked, id)} { RealIsTracked(tracked, id); }
  }

  lemma {:induction false} RealIsTracked(tracked: seq<Binding>, id: string)
    ensures var r := FirstReal(tracked, id);
      r.Some? ==> r.value in tracked && r.value.id == id && !r.value.placeholder && id in Ids(tracked)
  {
    if tracked != [] {
      var n := |tracked| - 1;
      RealIsTracked(tracked[..n], id);
      assert tracked == tracked[..n] + [tracked[n]];
      assert Ids(tracked) == Ids(tracked[..n]) + [tracked[n].id];
    }
  }

  lemma {:induction false} FirstRealAt(tracked: seq<Binding>, id: string)
    ensures var r := FirstReal(tracked, id);
      match r
      case Some(b) => exists i: nat :: i < |tracked| && tracked[i] == b && b.id == id && !b.placeholder && IsFirstReal(tracked, i)
      case None => forall i :: 0 <= i < |tracked| && tracked[i].id == id ==> tracked[i].placeholder
  {
    if tracked != [] {
      var n := |tracked| - 1;
      FirstRealAt(tracked[..n], id);
      var earlier := FirstReal(tracked[..n], id);
      if earlier.Some? {
        var i: nat :| i < n && tracked[..n][i] == earlier.value && IsFirstReal(tracked[..n], i);
        assert tracked[i] == earlier.value && IsFirstReal(tracked, i);
      } else if tracked[n].id == id && !tracked[n].placeholder {
        forall k | 0 <= k < n ensures !SameReal(tracked[k], tracked[n]) { assert tracked[..n][k] == tracked[k]; }
        assert IsFirstReal(tracked, n);
      } else {
        forall i | 0 <= i < |tracked| && tracked[i].id == id ensures tracked[i].placeholder { if i < n { assert tracked[..n][i] == tracked[i]; } }
      }
    }
  }

  lemma FirstIsBefore(tracked: seq<Binding>, f: nat, i: nat, b: Binding)
    requires f < |tracked| && i < |tracked| && IsFirstReal(tracked, f) && SameReal(tracked[f], b) && SameReal(tracked[i], b)
    ensures f <= i
  {
  }

  /** A binding is accepted if and only if it fits those registered before. */
  lemma AcceptedIfFit(bindings: map<string, Binding>, unbound: set<string>, tracked: seq<Binding>, b: Binding)
    requires Reflects(bindings, unbound, tracked) && Fit(tracked)
    ensures TrackError(bindings, b).None? <==> Fit(tracked + [b])
    ensures TrackError(bindings, b) == Some(EmptyId) <==> b.id == ""
    ensures TrackError(bindings, b) == Some(NotComparable(b.id)) <==> b.id != "" && b.instance.Some? && !b.comparable
  {
    var all, n := tracked + [b], |tracked|;
    FirstRealAt(tracked, b.id);
    var r := FirstReal(tracked, b.id);
    assert r == if b.id in bindings then Some(bindings[b.id]) else None;
    hide Reflects, FirstReal;
    assert all[n] == b && forall i :: 0 <= i < n ==> all[i] == tracked[i];
    forall i: nat | i < n ensures IsFirstReal(all, i) <==> IsFirstReal(tracked, i) {
    }
    if r.Some? && !b.placeholder {
      var f: nat :| f < n && tracked[f] == r.value && IsFirstReal(tracked, f);
      assert SameReal(all[f], all[n]) && IsFirstReal(all, f);
      forall i | 0 <= i < n && SameReal(all[i], b) ensures i == f || (f < i && SameReal(tracked[f], tracked[i])) {
        FirstIsBefore(tracked, f, i, b);
      }
    } else {
      forall i | 0 <= i < n ensures !SameReal(all[i], b) {
      }
    }
  }

  /** Ports are accepted if and only if each has an ID and message types, and the same definition
      as all others of its ID, earlier ones included. */
  lemma {:induction false} PortsAcceptedIff(ports: map<string, Port>, more: seq<Port>)
    ensures TrackPorts(ports, more).1.None? <==>
      && (forall p :: p in more ==> p.id != "" && p.typed && (p.id in ports ==> ports[p.id] == p))
      && (forall p, q :: p in more && q in more && p.id == q.id ==> p == q)
    decreases |more|
  {
    if more != [] {
      var p, rest := more[0], more[1..];
      assert more == [p] + rest && p in more;
      if p.id != "" && p.typed && (p.id in ports ==> ports[p.id] == p) { PortsAcceptedIff(ports[p.id := p], rest); }
    }
  }

  /** Tracking ports without a complaint keeps all definitions and adds the new ones. */
  lemma {:induction false} PortsTracked(ports: map<string, Port>, more: seq<Port>)
    requires TrackPorts(ports, more).1.None?
    ensures var after := TrackPorts(ports, more).0;
      && (forall id :: id in ports ==> id in after && after[id] == ports[id])
      && (forall p :: p in more ==> p.id in after && after[p.id] == p)
    decreases |more|
  {
    if more != [] {
      PortsTracked(ports[more[0].id := more[0]], more[1..]);
      assert more == [more[0]] + more[1..];
    }
  }

  /** All registered ports are known under one definition. */
  ghost predicate PortsAgree(ports: map<string, Port>, tracked: seq<Binding>) {
    forall b, p :: b in tracked && p in b.ports ==> p.id in ports && ports[p.id] == p
  }

  lemma PortsAgreeOneMore(ports: map<string, Port>, tracked: seq<Binding>, b: Binding)
    requires PortsAgree(ports, tracked) && TrackPorts(ports, b.ports).1.None?
    ensures PortsAgree(TrackPorts(ports, b.ports).0, tracked + [b])
  {
    PortsTracked(ports, b.ports);
  }

  function AddEdgeAt(edges: Edges, id: string, e: Edge): Edges {
    edges[id := EdgesFrom(edges, id) + [e]]
  }

  function AddEdgeAtAll(edges: Edges, ids: seq<string>, e: Edge): Edges {
    if ids == [] then edges else AddEdgeAt(AddEdgeAtAll(edges, ids[..|ids| - 1], e), ids[|ids| - 1], e)
  }

  /** An edge comes behind those that are there, at its source and nowhere else. */
  lemma EdgeAdded(edges: Edges, id: string, e: Edge, other: string)
    ensures EdgesFrom(AddEdgeAt(edges, id, e), other) == EdgesFrom(edges, other) + if other == id then [e] else []
    ensures forall b :: Leads(AddEdgeAt(edges, id, e), other, b) <==> Leads(edges, other, b) || (other == id && b in e.sinks)
  {
  }

  /** An edge with several sources is listed once for each time one is named. */
  lemma {:induction false} EdgeAddedAtAll(edges: Edges, ids: seq<string>, e: Edge, other: string)
    ensures EdgesFrom(AddEdgeAtAll(edges, ids, e), other) == EdgesFrom(edges, other) + Copies(e, multiset(ids)[other])
    ensures forall b :: Leads(AddEdgeAtAll(edges, ids, e), other, b) <==> Leads(edges, other, b) || (other in ids && b in e.sinks)
  {
    if ids == [] {
      assert Copies(e, 0) == [];
    } else {
      var n := |ids| - 1;
      assert ids == ids[..n] + [ids[n]];
      EdgeAddedAtAll(edges, ids[..n], e, other);
      EdgeAdded(AddEdgeAtAll(edges, ids[..n], e), ids[n], e, other);
      CopiesMore(e, multiset(ids[..n])[other]);
      hide Leads, EdgesFrom, AddEdgeAt;
      assert multiset(ids) == multiset(ids[..n]) + multiset{ids[n]};
    }
  }

  function Copies(e: Edge, n: nat): (r: seq<Edge>)
    ensures |r| == n && forall i :: 0 <= i < n ==> r[i] == e
  {
    seq(n, _ => e)
  }

  lemma CopiesMore(e: Edge, n: nat)
    ensures Copies(e, n + 1) == Copies(e, n) + [e]
  {
  }

  function Ids(bs: seq<Binding>): seq<string> {
    seq(|bs|, i requires 0 <= i < |bs| => bs[i].id)
  }

  lemma CoveredAdd(edges: Edges, known: set<string>, id: string, e: Edge)
    requires Covered(edges, known) && id in known && forall b :: b in e.sinks ==> b in known
    ensures Covered(AddEdgeAt(edges, id, e), known)
  {
  }

  class Builder {
    const startId: string
    var err: Option<BuildError>
    var edgeCount: int
    var bindings: map<string, Binding>
    var unbound: set<string>
    var edges: Edges
    var conditionless: seq<(string, string)>
    var ports: map<string, Port>
    var outputs: set<string>
    /** All registrations so far, which no method reads. */
    ghost var tracked: seq<Binding>

    function Known(): set<string>
      reads this
    {
      bindings.Keys + unbound
    }

    /** Bound and unbound executors are what the registrations amount to, which fit together, and
        cover all ends of edges and all outputs; while there is no error, ports have one definition each. */
    ghost predicate Registered()
      reads this
    {
      && Reflects(bindings, unbound, tracked)
      && Covered(edges, Known())
      && outputs <= Known()
      && Fit(tracked)
      && (err.None? ==> PortsAgree(ports, tracked))
    }

    /** The start executor is known, too, unless its registration failed. */
    ghost predicate Valid()
      reads this
    {
      Registered() && (err.None? ==> startId in Known())
    }

    constructor (start: Binding)
      ensures Valid() && startId == start.id && edges == map[] && outputs == {}
      ensures err.None? ==> tracked == [start]
    {
      startId, err, edgeCount := start.id, None, 0;
      bindings, unbound, edges, conditionless, ports, outputs := map[], {}, map[], [], map[], {};
      tracked := [];
      new;
      var ok := Track(start);
    }

    /** Registers a binding: placeholders are remembered as unbound until a real binding comes. */
    method Track(b: Binding) returns (ok: bool)
      requires Registered()
      modifies this`err, this`bindings, this`unbound, this`ports, this`tracked
      ensures Registered() && old(Known()) <= Known()
      ensures old(err).Some? ==>
        !ok && err == old(err) && bindings == old(bindings) && unbound == old(unbound) && ports == old(ports) && tracked == old(tracked)
      ensures old(err).None? ==> ok == err.None? && var e := TrackError(old(bindings), b);
        if e.Some? then
          err == e && bindings == old(bindings) && unbound == old(unbound) && ports == old(ports) && tracked == old(tracked)
        else (ports, err) == TrackPorts(old(ports), b.ports) && tracked == old(tracked) + [b]
      ensures ok ==> b.id in Known()
      ensures old(Valid()) ==> Valid()
    {
      if err.Some? { return false; }
      var e := TrackError(bindings, b);
      if e.Some? {
        err := e;
        return false;
      }
      hide Reflects, PortsAgree, Covered, TrackPorts, Fit;
      Register(b);
      if TrackPorts(ports, b.ports).1.None? { PortsAgreeOneMore(ports, old(tracked), b); }
      ok := TrackInputPorts(b.ports);
    }

    method TrackInputPorts(more: seq<Port>) returns (ok: bool)
      requires err.None?
      modifies this`err, this`ports
      ensures ok == err.None? && (ports, err) == TrackPorts(old(ports), more)
    {
      for i := 0 to |more|
        invariant err.None? && TrackPorts(ports, more[i..]) == TrackPorts(old(ports), more)
      {
        assert more[i..] == [more[i]] + more[i + 1..];
        ok := TrackInputPort(more[i], more[i + 1..]);
        if !ok { return; }
      }
      assert more[|more|..] == [];
      return true;
    }

    /** Enters a binding that fits those already there. */
    method Register(b: Binding)
      requires Registered() && TrackError(bindings, b).None?
      modifies this`bindings, this`unbound, this`tracked
      ensures Reflects(bindings, unbound, tracked) && Fit(tracked) && tracked == old(tracked) + [b]
      ensures Covered(edges, Known()) && outputs <= Known() && old(Known()) <= Known() && b.id in Known()
    {
      AcceptedIfFit(bindings, unbound, tracked, b);
      hide Reflects, PortsAgree, Covered, Fit;
      KnownStays(b);
      if b.id !in bindings {
        if b.placeholder {
          unbound := unbound + {b.id};
          assert Known() == old(Known()) + {b.id};
        } else {
          bindings := bindings[b.id := b];
          unbound := unbound - {b.id};
          assert Known() == old(Known()) + {b.id};
        }
      }
      tracked := tracked + [b];
    }

    /** Registers a request port, which must have a name, message types and one definition. */
    method TrackInputPort(port: Port, ghost more: seq<Port>) returns (ok: bool)
      requires err.None?
      modifies this`err, this`ports
      ensures ok == err.None?
      ensures TrackPorts(old(ports), [port] + more) == if ok then TrackPorts(ports, more) else (ports, err)
    {
      assert ([port] + more)[1..] == more && ([port] + more)[0] == port;
      if port.id == "" || !port.typed {
        err := Some(BadPort(port.id));
        return false;
      }
      if port.id in ports && ports[port.id] != port {
        err := Some(PortConflict(port.id));
        return false;
      }
      ports := ports[port.id := port];
      return true;
    }

    /** Registering one more binding forgets no executor. */
    lemma KnownStays(b: Binding)
      requires Registered()
      ensures
        if b.id in bindings then Reflects(bindings, unbound, tracked + [b])
        else if b.placeholder then
          Reflects(bindings, unbound + {b.id}, tracked + [b]) && Covered(edges, Known() + {b.id})
        else Reflects(bindings[b.id := b], unbound - {b.id}, tracked + [b]) && Covered(edges, Known() + {b.id})
    {
      if b.id in bindings {
        ReflectsBound(bindings, unbound, tracked, b);
      } else if b.placeholder {
        ReflectsPlaceholder(bindings, unbound, tracked, b);
      } else {
        ReflectsReal(bindings, unbound, tracked, b);
      }
    }

    /** Registers a list of bindings in order, up to the first that fails. */
    method TrackAll(bs: seq<Binding>) returns (ok: bool)
      requires Valid()
      modifies this`err, this`bindings, this`unbound, this`ports, this`tracked
      ensures Valid() && old(Known()) <= Known()
      ensures ok ==> forall id :: id in Ids(bs) ==> id in Known()
      ensures ok ==> err == old(err) && (bs != [] ==> err.None?) && tracked == old(tracked) + bs
      ensures !ok ==> err.Some? && old(tracked) <= tracked <= old(tracked) + bs
    {
      hide Registered;
      for i := 0 to |bs|
        invariant Valid() && old(Known()) <= Known() && err == old(err) && (i > 0 ==> err.None?)
        invariant tracked == old(tracked) + bs[..i]
        invariant forall k :: 0 <= k < i ==> bs[k].id in Known()
      {
        assert bs[..i + 1] == bs[..i] + [bs[i]];
        assert bs == bs[..i + 1] + bs[i + 1..];
        ok := Track(bs[i]);
        if !ok { return; }
      }
      assert bs[..|bs|] == bs;
      return true;
    }

    method BindExecutor(b: Binding)
      requires Valid()
      modifies this
      ensures Valid() && old(Known()) <= Known() && edges == old(edges) && outputs == old(outputs)
      ensures conditionless == old(conditionless)
      ensures old(err).Some? ==> err == old(err)
      ensures old(err).None? && b.placeholder ==> err == Some(IsPlaceholder(b.id))
      ensures err.None? ==> b.id in bindings && tracked == old(tracked) + [b]
    {
      if err.Some? { return; }
      if b.placeholder {
        err := Some(IsPlaceholder(b.id));
        return;
      }
      var ok := Track(b);
      if ok { BoundNow(b); }
    }

    lemma BoundNow(b: Binding)
      requires Registered() && tracked != [] && tracked[|tracked| - 1] == b && !b.placeholder
      ensures b.id in bindings
    {
      assert FirstReal(tracked, b.id).Some?;
    }

    /** The index of the next edge. */
    method EdgeIdx() returns (index: int)
      requires Valid()
      modifies this`edgeCount
      ensures Valid() && index == edgeCount == old(edgeCount) + 1
    {
      hide Reflects, PortsAgree, Covered;
      edgeCount := edgeCount + 1;
      return edgeCount;
    }

    method AddEdgeForSource(id: string, edge: Edge)
      requires Valid() && id in Known() && forall b :: b in edge.sinks ==> b in Known()
      modifies this`edges
      ensures Valid() && edges == AddEdgeAt(old(edges), id, edge)
    {
      hide Reflects, PortsAgree, Covered;
      CoveredAdd(edges, Known(), id, edge);
      edges := AddEdgeAt(edges, id, edge);
    }

    method NoteConditionless(source: string, sink: string)
      requires Valid()
      modifies this`conditionless
      ensures Valid() && conditionless == old(conditionless) + [(source, sink)]
    {
      hide Reflects, PortsAgree, Covered;
      conditionless := conditionless + [(source, sink)];
    }

    method AddOutput(id: string)
      requires Valid() && id in Known()
      modifies this`outputs
      ensures Valid() && outputs == old(outputs) + {id}
    {
      hide Reflects, PortsAgree, Covered;
      outputs := outputs + {id};
    }

    method Fail(why: BuildError)
      requires Valid()
      modifies this`err
      ensures Valid() && err == Some(why)
    {
      hide Reflects, PortsAgree, Covered;
      err := Some(why);
    }

    /** A direct edge. Repeating one without a condition is an error, or nothing when idempotent. */
    method AddEdge(source: Binding, target: Binding, conditional: bool, idempotent: bool)
      requires Valid()
      modifies this
      ensures Valid() && old(Known()) <= Known() && outputs == old(outputs)
      ensures var again := !conditional && (source.id, target.id) in old(conditionless);
        if old(err).Some? then err == old(err) && SameEdges(old(edges), old(conditionless))
        else if again then
          && SameEdges(old(edges), old(conditionless)) && tracked == old(tracked)
          && err == if idempotent then None else Some(DuplicateEdge(source.id, target.id))
        else if err.Some? then SameEdges(old(edges), old(conditionless))
        else
          && edgeCount == old(edgeCount) + 1
          && edges == AddEdgeAt(old(edges), source.id, Edge(edgeCount, [source.id], [target.id], conditional))
          && conditionless == old(conditionless) + (if conditional then [] else [(source.id, target.id)])
          && tracked == old(tracked) + [source, target]
    {
      hide Registered;
      if err.Some? { return; }
      if !conditional && (source.id, target.id) in conditionless {
        if !idempotent { Fail(DuplicateEdge(source.id, target.id)); }
        return;
      }
      var ok := TrackAll([source, target]);
      if !ok { return; }
      assert Ids([source, target])[0] == source.id && Ids([source, target])[1] == target.id;
      var index := EdgeIdx();
      AddEdgeForSource(source.id, Edge(index, [source.id], [target.id], conditional));
      if !conditional { NoteConditionless(source.id, target.id); }
    }

    predicate SameEdges(edges: Edges, conditionless: seq<(string, string)>)
      reads this
    {
      this.edges == edges && this.conditionless == conditionless
    }

    method AddFanOutEdge(source: Binding, targets: seq<Binding>)
      requires Valid()
      modifies this
      ensures Valid() && old(Known()) <= Known() && outputs == old(outputs) && conditionless == old(conditionless)
      ensures old(err).Some? ==> err == old(err)
      ensures old(err).None? && targets == [] ==> err == Some(NoTargets)
      ensures err.Some? ==> edges == old(edges)
      ensures err.None? ==>
        && edgeCount == old(edgeCount) + 1
        && edges == AddEdgeAt(old(edges), source.id, Edge(edgeCount, [source.id], Ids(targets), false))
        && tracked == old(tracked) + ([source] + targets)
    {
      hide Registered;
      if err.Some? { return; }
      if |targets| == 0 {
        Fail(NoTargets);
        return;
      }
      var ok := TrackAll([source] + targets);
      if !ok { return; }
      assert Ids([source] + targets) == [source.id] + Ids(targets);
      var index := EdgeIdx();
      AddEdgeForSource(source.id, Edge(index, [source.id], Ids(targets), false));
    }

    method AddFanInBarrierEdge(sources: seq<Binding>, target: Binding)
      requires Valid()
      modifies this
      ensures Valid() && old(Known()) <= Known() && outputs == old(outputs) && conditionless == old(conditionless)
      ensures old(err).Some? ==> err == old(err)
      ensures old(err).None? && sources == [] ==> err == Some(NoSources)
      ensures err.Some? ==> edges == old(edges)
      ensures err.None? ==>
        && edgeCount == old(edgeCount) + 1
        && edges == AddEdgeAtAll(old(edges), Ids(sources), Edge(edgeCount, Ids(sources), [target.id], false))
        && tracked == old(tracked) + ([target] + sources)
    {
      hide Registered;
      if err.Some? { return; }
      if |sources| == 0 {
        Fail(NoSources);
        return;
      }
      var ok := TrackAll([target] + sources);
      if !ok { return; }
      assert Ids([target] + sources) == [target.id] + Ids(sources);
      var index := EdgeIdx();
      var ids := Ids(sources);
      var edge := Edge(index, ids, [target.id], false);
      ghost var before := edges;
      assert ids[..0] == [];
      for i := 0 to |ids|
        invariant edges == AddEdgeAtAll(before, ids[..i], edge) && Valid()
        modifies this`edges
      {
        assert ids[..i + 1][..i] == ids[..i];
        assert ids[i] in ids;
        AddEdgeForSource(ids[i], edge);
      }
      assert ids[..|ids|] == ids;
    }

    /** Declares executors as outputs of the workflow, up to the first that fails. */
    method WithOutputFrom(bs: seq<Binding>)
      requires Valid()
      modifies this`err, this`bindings, this`unbound, this`ports, this`tracked, this`outputs
      ensures Valid() && old(Known()) <= Known() && old(outputs) <= outputs
      ensures old(err).Some? ==> err == old(err) && outputs == old(outputs) && tracked == old(tracked)
      ensures old(err).None? && err.None? ==> outputs == old(outputs) + Names(bs) && tracked == old(tracked) + bs
    {
      if err.Some? { return; }
      hide Registered, Names;
      assert Names(bs[..0]) == {};
      for i := 0 to |bs|
        invariant Valid() && err.None? && old(Known()) <= Known()
        invariant tracked == old(tracked) + bs[..i]
        invariant outputs == old(outputs) + Names(bs[..i])
      {
        OneFurther(old(tracked), bs, i);
        var ok := Track(bs[i]);
        if !ok { return; }
        AddOutput(bs[i].id);
      }
      assert bs[..|bs|] == bs;
    }

    /** The worklist: removes from the bound executors all that it comes to from the start. */
    method FindOrphans() returns (remaining: set<string>)
      requires Valid() && err.None? && unbound == {}
      ensures remaining == set id | id in bindings && !Reachable(edges, startId, id)
    {
      hide Searching, Reachable;
      remaining := bindings.Keys;
      var toVisit := [startId];
      SearchStarts(edges, bindings.Keys, startId);
      while toVisit != []
        invariant Searching(edges, bindings.Keys, startId, remaining, toVisit)
        decreases remaining, |toVisit|
      {
        var current, rest := toVisit[0], toVisit[1..];
        assert toVisit == [current] + rest;
        SearchSkips(edges, bindings.Keys, startId, remaining, current, rest);
        toVisit := rest;
        if current !in remaining { continue; }
        ghost var before := remaining;
        remaining := remaining - {current};
        assert remaining + {current} == before;
        var sinks := [];
        var out := EdgesFrom(edges, current);
        for i := 0 to |out|
          invariant toVisit == rest + sinks
          invariant forall id :: id in sinks ==> Leads(edges, current, id)
          invariant forall k, b :: 0 <= k < i && b in out[k].sinks ==> b in sinks
        {
          assert out[i] in out;
          toVisit := toVisit + out[i].sinks;
          sinks := sinks + out[i].sinks;
        }
        SearchVisits(edges, bindings.Keys, startId, remaining, current, rest, sinks);
      }
      SearchEnds(edges, bindings.Keys, startId, remaining);
    }

    lemma OutputsBound()
      requires Registered() && unbound == {}
      ensures outputs <= bindings.Keys
    {
      assert Known() == bindings.Keys;
    }

    /** Looks for a pair of types that fit. */
    method FindPair(sends: seq<nat>, accepts: seq<nat>, compatible: (nat, nat) -> bool) returns (found: bool)
      ensures found <==> exists a, b :: a in sends && b in accepts && compatible(a, b)
    {
      for i := 0 to |sends|
        invariant forall a, b :: a in sends[..i] && b in accepts ==> !compatible(a, b)
      {
        for j := 0 to |accepts|
          invariant forall b :: b in accepts[..j] ==> !compatible(sends[i], b)
        {
          if compatible(sends[i], accepts[j]) {
            assert sends[i] in sends && accepts[j] in accepts;
            return true;
          }
        }
        assert accepts[..|accepts|] == accepts;
      }
      assert sends[..|sends|] == sends;
      return false;
    }

    /** Decides one connection. */
    method CheckPair(source: string, sink: string, compatible: (nat, nat) -> bool) returns (ok: bool)
      ensures ok <==> CanDeliver(bindings, source, sink, compatible)
    {
      var p, q := ProtocolOf(bindings, source), ProtocolOf(bindings, sink);
      if p.None? || |p.value.sends| == 0 || q.None? || q.value.acceptsAll || |q.value.accepts| == 0 { return true; }
      ok := FindPair(p.value.sends, q.value.accepts, compatible);
    }

    /** The edges of one source. A failure names the sink. */
    method CheckEdges(source: string, compatible: (nat, nat) -> bool) returns (bad: Option<string>)
      ensures bad.None? <==> DeliversFrom(bindings, edges, source, compatible)
      ensures bad.Some? ==> Leads(edges, source, bad.value) && !CanDeliver(bindings, source, bad.value, compatible)
    {
      hide CanDeliver;
      var out := EdgesFrom(edges, source);
      for i := 0 to |out|
        invariant forall k, b :: 0 <= k < i && b in out[k].sinks ==> CanDeliver(bindings, source, b, compatible)
      {
        var sinks := out[i].sinks;
        for j := 0 to |sinks|
          invariant forall b :: b in sinks[..j] ==> CanDeliver(bindings, source, b, compatible)
        {
          var ok := CheckPair(source, sinks[j], compatible);
          if !ok {
            assert out[i] in out && sinks[j] in out[i].sinks;
            return Some(sinks[j]);
          }
        }
        assert sinks[..|sinks|] == sinks;
      }
      return None;
    }

    /** Checks the types along all edges, source by source in any order. */
    method CheckTypes(compatible: (nat, nat) -> bool) returns (bad: Option<BuildError>)
      ensures bad.None? <==> AllDeliver(bindings, edges, compatible)
      ensures bad.Some? ==> bad.value.IncompatibleTypes?
      ensures bad.Some? ==> Leads(edges, bad.value.source, bad.value.sink)
      ensures bad.Some? ==> !CanDeliver(bindings, bad.value.source, bad.value.sink, compatible)
    {
      hide DeliversFrom, CanDeliver;
      var left := edges.Keys;
      while left != {}
        invariant left <= edges.Keys
        invariant forall id :: id in edges && id !in left ==> DeliversFrom(bindings, edges, id, compatible)
      {
        var id :| id in left;
        var sink := CheckEdges(id, compatible);
        if sink.Some? { return Some(IncompatibleTypes(id, sink.value)); }
        left := left - {id};
      }
      return None;
    }

    /** The orphan check. */
    method CheckOrphans() returns (bad: Option<BuildError>)
      requires Valid() && err.None? && unbound == {}
      ensures bad.None? <==> AllReachable(bindings, edges, startId)
      ensures bad.Some? ==> bad.value == Orphaned(set id | id in bindings && !Reachable(edges, startId, id))
    {
      hide Reflects, PortsAgree, Covered;
      if |bindings| == 0 { return None; }
      var orphans := FindOrphans();
      if |orphans| > 0 {
        ghost var id :| id in orphans;
        assert id in bindings && !Reachable(edges, startId, id);
        return Some(Orphaned(orphans));
      }
      assert forall id :: id in bindings && !Reachable(edges, startId, id) ==> id in orphans;
      return None;
    }

    /** The checks of a build, up to the first that fails. The check for outputs that are not in
        the graph never fails: declaring an output registers it. */
    method Validate(validateOrphans: bool, compatible: (nat, nat) -> bool) returns (ok: bool)
      requires Valid()
      modifies this`err
      ensures ok == err.None?
      ensures ok <==>
        && old(err).None? && unbound == {}
        && (validateOrphans ==> AllReachable(bindings, edges, startId))
        && AllDeliver(bindings, edges, compatible)
      ensures old(err).Some? ==> err == old(err)
      ensures old(err).None? && unbound != {} ==> err == Some(Unbound(unbound))
      ensures err.Some? && err.value.Orphaned? && old(err).None? ==>
        err.value.ids == set id | id in bindings && !Reachable(edges, startId, id)
      ensures err.Some? && err.value.IncompatibleTypes? && old(err).None? ==>
        Leads(edges, err.value.source, err.value.sink) && !CanDeliver(bindings, err.value.source, err.value.sink, compatible)
    {
      if err.Some? { return false; }
      if unbound != {} {
        err := Some(Unbound(unbound));
        return false;
      }
      OutputsBound();
      hide *;
      if !(outputs <= bindings.Keys) {
        assert false; // outputs are registered, and nothing is left unbound
      }
      if validateOrphans {
        var orphaned := CheckOrphans();
        if orphaned.Some? {
          err := orphaned;
          return false;
        }
      }
      var bad := CheckTypes(compatible);
      if bad.Some? {
        err := bad;
        return false;
      }
      return true;
    }
  }

  // ---------------------------------------------------------------- reachability

  lemma ReachesItself(edges: Edges, a: string)
    ensures Reachable(edges, a, a)
  {
    assert IsWalk(edges, [a]);
    assert [a][0] == a;
  }

  lemma ReachesFurther(edges: Edges, a: string, b: string, c: string)
    requires Reachable(edges, a, b) && Leads(edges, b, c)
    ensures Reachable(edges, a, c)
  {
    var p :| IsWalk(edges, p) && p[0] == a && p[|p| - 1] == b;
    var q := p + [c];
    assert IsWalk(edges, q) && q[0] == a && q[|q| - 1] == c;
  }

  /** Everything the visited executors lead to is visited or noted. */
  ghost predicate Explored(edges: Edges, visited: set<string>, noted: set<string>) {
    forall a, b :: a in visited && Leads(edges, a, b) ==> b in noted
  }

  /** A set that its edges do not leave holds all that is reachable from its members. */
  lemma NothingBeyond(edges: Edges, closed: set<string>, a: string, b: string)
    requires Explored(edges, closed, closed) && a in closed && Reachable(edges, a, b)
    ensures b in closed
  {
    var p :| IsWalk(edges, p) && p[0] == a && p[|p| - 1] == b;
    WalkStays(edges, closed, p, |p| - 1);
  }

  lemma {:induction false} WalkStays(edges: Edges, closed: set<string>, p: seq<string>, i: nat)
    requires Explored(edges, closed, closed) && IsWalk(edges, p) && p[0] in closed && i < |p|
    ensures p[i] in closed
  {
    if i > 0 {
      WalkStays(edges, closed, p, i - 1);
      assert Leads(edges, p[i - 1], p[i]);
    }
  }

  /** Everything the worklist search knows: what is removed is reachable and leads to nothing
      else than removed or noted executors, and what is noted is reachable. */
  ghost predicate Searching(edges: Edges, bound: set<string>, start: string, remaining: set<string>, toVisit: seq<string>) {
    && Covered(edges, bound) && remaining <= bound
    && (forall id :: id in toVisit ==> id in bound && Reachable(edges, start, id))
    && (forall id :: id in bound && id !in remaining ==> Reachable(edges, start, id))
    && (start in toVisit || start in bound - remaining)
    && (forall a, b :: a in bound - remaining && Leads(edges, a, b) ==> b in bound - remaining || b in toVisit)
  }

  lemma SearchStarts(edges: Edges, bound: set<string>, start: string)
    requires Covered(edges, bound) && start in bound
    ensures Searching(edges, bound, start, bound, [start])
  {
    ReachesItself(edges, start);
  }

  lemma SearchSkips(edges: Edges, bound: set<string>, start: string, remaining: set<string>, current: string, rest: seq<string>)
    requires Searching(edges, bound, start, remaining, [current] + rest)
    ensures current in bound && (current !in remaining ==> Searching(edges, bound, start, remaining, rest))
    ensures current in remaining ==> SearchingBut(edges, bound, start, remaining, current, rest)
  {
    hide Reachable;
    assert current in [current] + rest;
    assert forall id :: id in rest ==> id in [current] + rest;
  }

  /** The same with the current executor taken off the list. */
  ghost predicate SearchingBut(edges: Edges, bound: set<string>, start: string, remaining: set<string>, current: string, rest: seq<string>) {
    && current in remaining && Reachable(edges, start, current)
    && Searching(edges, bound, start, remaining, [current] + rest)
  }

  lemma SearchVisits(edges: Edges, bound: set<string>, start: string, remaining: set<string>,
                     current: string, rest: seq<string>, sinks: seq<string>)
    requires current !in remaining && SearchingBut(edges, bound, start, remaining + {current}, current, rest)
    requires forall id :: id in sinks ==> Leads(edges, current, id)
    requires forall e, b :: e in EdgesFrom(edges, current) && b in e.sinks ==> b in sinks
    ensures Searching(edges, bound, start, remaining, rest + sinks)
  {
    hide Reachable;
    forall id | id in sinks ensures id in bound && Reachable(edges, start, id) {
      ReachesFurther(edges, start, current, id);
    }
    assert forall id :: id in rest ==> id in [current] + rest;
    forall a, b | a in bound - remaining && Leads(edges, a, b) ensures b in bound - remaining || b in rest + sinks {
      if a != current { assert a in bound - (remaining + {current}); }
    }
  }

  lemma SearchEnds(edges: Edges, bound: set<string>, start: string, remaining: set<string>)
    requires Searching(edges, bound, start, remaining, [])
    ensures remaining == set id | id in bound && !Reachable(edges, start, id)
  {
    var visited := bound - remaining;
    assert Explored(edges, visited, visited);
    forall id | id in remaining ensures !Reachable(edges, start, id) {
      if Reachable(edges, start, id) { NothingBeyond(edges, visited, start, id); }
    }
  }
}
