/**
 StaticInformation of utils/print-introspected-doxygen.cc: the recursive walk that lists, for every
 TypeId, the configuration paths that lead to it.

 The TypeIds form a finite labelled multigraph that may have cycles.  A walk from a root is given by
 the positions of the edges it takes; it is simple when it visits no TypeId twice.
 */
module Introspection {
  import opened Sequences

  /** TypeIds are numbered by their registration. */
  type TypeId = nat

  datatype Attribute =
    | Pointer(name: string, pointee: TypeId)
    | Container(name: string, item: TypeId)
    | Plain(name: string)

  datatype TypeInfo = TypeInfo(name: string, attributes: seq<Attribute>)

  /** What the TypeId registry answers; `childOf` holds the pairs (child, ancestor) of IsChildOf. */
  datatype Registry = Registry(types: seq<TypeInfo>, childOf: set<(TypeId, TypeId)>, objectId: TypeId)

  ghost predicate RegistryOk(reg: Registry, aggregates: seq<(TypeId, TypeId)>) {
    && (forall t, i :: 0 <= t < |reg.types| && 0 <= i < |reg.types[t].attributes| ==>
         AttributeOk(reg, reg.types[t].attributes[i]))
    && (forall i :: 0 <= i < |aggregates| ==> aggregates[i].0 < |reg.types| && aggregates[i].1 < |reg.types|)
  }

  ghost predicate AttributeOk(reg: Registry, a: Attribute) {
    match a
    case Pointer(_, t) => t < |reg.types|
    case Container(_, t) => t < |reg.types|
    case Plain(_) => true
  }

  function NameOf(reg: Registry, t: TypeId): string {
    if t < |reg.types| then reg.types[t].name else ""
  }

  // ----- the graph

  datatype Edge = Edge(step: string, target: TypeId)

  /** The edge that an attribute stands for, if any: a pointer to Object is not followed. */
  function AttributeEdge(reg: Registry, a: Attribute): seq<Edge> {
    match a
    case Pointer(name, pointee) => if pointee == reg.objectId then [] else [Edge(name, pointee)]
    case Container(name, item) => [Edge(name + "/[i]", item)]
    case Plain(_) => []
  }

  /** The edges of the first n attributes. */
  function AttributeEdges(reg: Registry, attrs: seq<Attribute>, n: nat): seq<Edge>
    requires n <= |attrs|
  {
    if n == 0 then [] else AttributeEdges(reg, attrs, n - 1) + AttributeEdge(reg, attrs[n - 1])
  }

  function ChildEdge(reg: Registry, tid: TypeId, j: nat): seq<Edge> {
    if (j, tid) in reg.childOf then [Edge("$" + NameOf(reg, j), j)] else []
  }

  /** Edges to the child types among the first n registered types. */
  function ChildEdges(reg: Registry, tid: TypeId, n: nat): seq<Edge> {
    if n == 0 then [] else ChildEdges(reg, tid, n - 1) + ChildEdge(reg, tid, n - 1)
  }

  /** An aggregation leads from either side to the other. */
  function AggregateEdge(reg: Registry, tid: TypeId, pair: (TypeId, TypeId)): seq<Edge> {
    if pair.1 == tid then [Edge("$" + NameOf(reg, pair.0), pair.0)]
    else if pair.0 == tid then [Edge("$" + NameOf(reg, pair.1), pair.1)]
    else []
  }

  /** Edges through the first n aggregations. */
  function AggregateEdges(reg: Registry, tid: TypeId, pairs: seq<(TypeId, TypeId)>, n: nat): seq<Edge>
    requires n <= |pairs|
  {
    if n == 0 then [] else AggregateEdges(reg, tid, pairs, n - 1) + AggregateEdge(reg, tid, pairs[n - 1])
  }

  /** The edges of each TypeId, in the order in which they are followed. */
  datatype Graph = Graph(edges: seq<seq<Edge>>)

  // ----- walks

  /** Positions of the edges that a walk takes. */
  type Walk = seq<nat>

  ghost predicate IsWalk(g: Graph, t: TypeId, w: Walk)
    decreases |w|
  {
    && t < |g.edges|
    && (w == [] || (w[0] < |g.edges[t]| && IsWalk(g, g.edges[t][w[0]].target, w[1..])))
  }

  /** The TypeIds that a walk visits, its start included. */
  ghost function Visited(g: Graph, t: TypeId, w: Walk): (vs: seq<TypeId>)
    requires IsWalk(g, t, w)
    ensures |vs| == |w| + 1 && vs[0] == t
    decreases |w|
  {
    if w == [] then [t] else [t] + Visited(g, g.edges[t][w[0]].target, w[1..])
  }

  /** The labels that a walk spells. */
  ghost function Spelled(g: Graph, t: TypeId, w: Walk): seq<string>
    requires IsWalk(g, t, w)
    decreases |w|
  {
    if w == [] then [] else [g.edges[t][w[0]].step] + Spelled(g, g.edges[t][w[0]].target, w[1..])
  }

  ghost function End(g: Graph, t: TypeId, w: Walk): TypeId
    requires IsWalk(g, t, w)
  {
    Visited(g, t, w)[|w|]
  }

  /** A walk that visits no TypeId twice. */
  ghost predicate SimpleWalk(g: Graph, t: TypeId, w: Walk)
  {
    IsWalk(g, t, w) && Distinct(Visited(g, t, w))
  }

  /** A simple walk that also stays clear of the ancestors. */
  ghost predicate SimpleFrom(g: Graph, anc: seq<TypeId>, t: TypeId, w: Walk)
  {
    IsWalk(g, t, w) && Distinct(anc + Visited(g, t, w))
  }

  /** The order in which a depth-first search meets the walks. */
  ghost predicate Before(v: Walk, w: Walk) {
    w != [] && (v == [] || v[0] < w[0] || (v[0] == w[0] && Before(v[1..], w[1..])))
  }

  // ----- the enumeration of the simple walks

  /** The registered TypeIds that are not on the stack. */
  ghost function Unvisited(g: Graph, anc: seq<TypeId>): set<TypeId> {
    set t | 0 <= t < |g.edges| && t !in anc
  }

  ghost function Room(g: Graph, anc: seq<TypeId>): nat {
    |Unvisited(g, anc)|
  }

  ghost function Prefixed(k: nat, ws: seq<Walk>): seq<Walk> {
    seq(|ws|, i requires 0 <= i < |ws| => [k] + ws[i])
  }

  /** The walks from t that DoGather follows when it has `anc` on its stack, in its order. */
  ghost function Walks(g: Graph, anc: seq<TypeId>, t: TypeId): (ws: seq<Walk>)
    ensures forall i :: 0 <= i < |ws| ==> IsWalk(g, t, ws[i])
    decreases Room(g, anc), 0
  {
    if t in anc || t >= |g.edges| then []
    else
      LessRoom(g, anc, t);
      [[]] + EdgeWalks(g, anc + [t], t, |g.edges[t]|)
  }

  /** Those that start with one of the first n edges of t. */
  ghost function EdgeWalks(g: Graph, anc: seq<TypeId>, t: TypeId, n: nat): (ws: seq<Walk>)
    requires t < |g.edges| && n <= |g.edges[t]|
    ensures forall i :: 0 <= i < |ws| ==> IsWalk(g, t, ws[i])
    decreases Room(g, anc), 1 + n
  {
    if n == 0 then [] else EdgeWalks(g, anc, t, n - 1) + Prefixed(n - 1, Walks(g, anc, g.edges[t][n - 1].target))
  }

  lemma {:induction false} EdgeWalksMember(g: Graph, anc: seq<TypeId>, t: TypeId, n: nat, w: Walk)
    requires t < |g.edges| && n <= |g.edges[t]|
    ensures w in EdgeWalks(g, anc, t, n) <==>
      w != [] && w[0] < n && w[1..] in Walks(g, anc, g.edges[t][w[0]].target)
  {
    if n == 0 {
    } else {
      EdgeWalksMember(g, anc, t, n - 1, w);
      var ws := Walks(g, anc, g.edges[t][n - 1].target);
      assert w in Prefixed(n - 1, ws) <==> w != [] && w[0] == n - 1 && w[1..] in ws by {
        if w in Prefixed(n - 1, ws) {
          var i :| 0 <= i < |ws| && w == Prefixed(n - 1, ws)[i];
          assert w[1..] == ws[i];
        }
        if w != [] && w[0] == n - 1 && w[1..] in ws {
          var i :| 0 <= i < |ws| && ws[i] == w[1..];
          assert w == Prefixed(n - 1, ws)[i];
        }
      }
    }
  }

  /** The enumeration has exactly the simple walks that avoid the ancestors. */
  lemma {:induction false} WalksExact(g: Graph, anc: seq<TypeId>, t: TypeId, w: Walk)
    requires Distinct(anc)
    ensures w in Walks(g, anc, t) <==> SimpleFrom(g, anc, t, w)
    decreases |w|
  {
    if t >= |g.edges| {
    } else if t in anc {
      if IsWalk(g, t, w) {
        var i :| 0 <= i < |anc| && anc[i] == t;
        var vs := anc + Visited(g, t, w);
        assert vs[i] == t && vs[|anc|] == t;
      }
    } else if w == [] {
      assert Walks(g, anc, t)[0] == [];
    } else {
      EdgeWalksMember(g, anc + [t], t, |g.edges[t]|, w);
      assert w in Walks(g, anc, t) <==> w in EdgeWalks(g, anc + [t], t, |g.edges[t]|);
      if w[0] < |g.edges[t]| {
        var u := g.edges[t][w[0]].target;
        WalksExact(g, anc + [t], u, w[1..]);
        if IsWalk(g, u, w[1..]) {
          assert anc + Visited(g, t, w) == (anc + [t]) + Visited(g, u, w[1..]);
        }
      }
    }
  }

  ghost predicate Ordered(ws: seq<Walk>) {
    forall i, j :: 0 <= i < j < |ws| ==> Before(ws[i], ws[j])
  }

  ghost predicate StartBelow(ws: seq<Walk>, n: nat) {
    forall i :: 0 <= i < |ws| ==> ws[i] != [] && ws[i][0] < n
  }

  lemma PrefixedOrdered(k: nat, ws: seq<Walk>)
    requires Ordered(ws)
    ensures Ordered(Prefixed(k, ws))
  {
    var ps := Prefixed(k, ws);
    forall i, j | 0 <= i < j < |ps| ensures Before(ps[i], ps[j]) {
      assert ps[i][1..] == ws[i] && ps[j][1..] == ws[j];
    }
  }

  lemma {:induction false} EdgeWalksOrdered(g: Graph, anc: seq<TypeId>, t: TypeId, n: nat)
    requires t < |g.edges| && n <= |g.edges[t]|
    ensures Ordered(EdgeWalks(g, anc, t, n)) && StartBelow(EdgeWalks(g, anc, t, n), n)
    decreases Room(g, anc), 1 + n
  {
    if n == 0 {
    } else {
      EdgeWalksOrdered(g, anc, t, n - 1);
      WalksOrdered(g, anc, g.edges[t][n - 1].target);
      PrefixedOrdered(n - 1, Walks(g, anc, g.edges[t][n - 1].target));
    }
  }

  /** The walks come in depth-first order, so none comes twice. */
  lemma {:induction false} WalksOrdered(g: Graph, anc: seq<TypeId>, t: TypeId)
    ensures Ordered(Walks(g, anc, t))
    decreases Room(g, anc), 0
  {
    if t !in anc && t < |g.edges| {
      LessRoom(g, anc, t);
      EdgeWalksOrdered(g, anc + [t], t, |g.edges[t]|);
      var vs := EdgeWalks(g, anc + [t], t, |g.edges[t]|);
      assert StartBelow(vs, |g.edges[t]|) && Ordered([[]] + vs);
    }
  }

  lemma {:induction false} BeforeIrreflexive(w: Walk)
    ensures !Before(w, w)
  {
    if w == [] {
    } else {
      BeforeIrreflexive(w[1..]);
    }
  }

  // ----- what is recorded

  /** The path string: each step behind a slash. */
  function Joined(path: seq<string>): string {
    if path == [] then "" else Joined(path[..|path| - 1]) + ("/" + path[|path| - 1])
  }

  /** The path strings of two lists of steps are joined as the lists are. */
  lemma {:induction false} JoinedConcat(p: seq<string>, q: seq<string>)
    ensures Joined(p + q) == Joined(p) + Joined(q)
  {
    if q == [] {
      assert p + q == p && Joined(p) + "" == Joined(p);
    } else {
      var m := |q| - 1;
      assert (p + q)[..|p + q| - 1] == p + q[..m] && (p + q)[|p + q| - 1] == q[m];
      JoinedConcat(p, q[..m]);
      assert (Joined(p) + Joined(q[..m])) + ("/" + q[m]) == Joined(p) + (Joined(q[..m]) + ("/" + q[m]));
    }
  }

  /** The path string of one step is the step behind a slash. */
  lemma JoinedOne(s: string)
    ensures |Joined([s])| == |s| + 1 && Joined([s])[0] == '/' && Joined([s])[1..] == s
  {
    assert [s][..0] == [];
    assert Joined([s]) == Joined([]) + ("/" + s);
  }

  type Entry = (TypeId, string)

  ghost function EntryOf(g: Graph, path: seq<string>, t: TypeId, w: Walk): Entry
    requires IsWalk(g, t, w)
  {
    (End(g, t, w), Joined(path + Spelled(g, t, w)))
  }

  ghost function Entries(g: Graph, path: seq<string>, t: TypeId, ws: seq<Walk>): seq<Entry>
    requires forall i :: 0 <= i < |ws| ==> IsWalk(g, t, ws[i])
  {
    seq(|ws|, i requires 0 <= i < |ws| => EntryOf(g, path, t, ws[i]))
  }

  /** The entries of all walks that are followed from t with `anc` on the stack. */
  ghost function All(g: Graph, path: seq<string>, anc: seq<TypeId>, t: TypeId): seq<Entry> {
    Entries(g, path, t, Walks(g, anc, t))
  }

  /** Those of the walks that start with one of the first n edges of t. */
  ghost function Part(g: Graph, path: seq<string>, anc: seq<TypeId>, t: TypeId, n: nat): seq<Entry> {
    if t < |g.edges| && n <= |g.edges[t]| then Entries(g, path, t, EdgeWalks(g, anc, t, n)) else []
  }

  lemma PartNone(g: Graph, path: seq<string>, anc: seq<TypeId>, t: TypeId)
    ensures Part(g, path, anc, t, 0) == []
  {}

  /** What one search from a root records. */
  ghost function Recorded(g: Graph, root: TypeId): seq<Entry> {
    Entries(g, [], root, Walks(g, [], root))
  }

  /** What the searches from several roots record, one after the other. */
  ghost function RecordedFrom(g: Graph, roots: seq<TypeId>): seq<Entry> {
    if roots == [] then [] else RecordedFrom(g, roots[..|roots| - 1]) + Recorded(g, roots[|roots| - 1])
  }

  lemma EntriesConcat(g: Graph, path: seq<string>, t: TypeId, vs: seq<Walk>, ws: seq<Walk>)
    requires forall i :: 0 <= i < |vs| ==> IsWalk(g, t, vs[i])
    requires forall i :: 0 <= i < |ws| ==> IsWalk(g, t, ws[i])
    ensures Entries(g, path, t, vs + ws) == Entries(g, path, t, vs) + Entries(g, path, t, ws)
  {
    var es := Entries(g, path, t, vs + ws);
    forall i | 0 <= i < |es| ensures es[i] == (Entries(g, path, t, vs) + Entries(g, path, t, ws))[i] {
      assert es[i] == EntryOf(g, path, t, (vs + ws)[i]);
    }
  }

  lemma EntryOfStay(g: Graph, path: seq<string>, t: TypeId)
    requires t < |g.edges|
    ensures Entries(g, path, t, [[]]) == [(t, Joined(path))]
  {
    assert path + Spelled(g, t, []) == path;
    assert EntryOf(g, path, t, []) == (t, Joined(path));
  }

  /** Nothing from an ancestor; else t itself, and then what its edges lead to. */
  lemma AllIs(g: Graph, path: seq<string>, anc: seq<TypeId>, t: TypeId)
    requires t < |g.edges|
    ensures All(g, path, anc, t)
         == if t in anc then [] else [(t, Joined(path))] + Part(g, path, anc + [t], t, |g.edges[t]|)
  {
    if t !in anc {
      EntryOfStay(g, path, t);
      EntriesConcat(g, path, t, [[]], EdgeWalks(g, anc + [t], t, |g.edges[t]|));
    }
  }

  /** Prefixing the walks from the target of an edge moves the step of the edge onto the path. */
  lemma EntriesPrefixed(g: Graph, path: seq<string>, t: TypeId, k: nat, ws: seq<Walk>)
    requires t < |g.edges| && k < |g.edges[t]|
    requires forall i :: 0 <= i < |ws| ==> IsWalk(g, g.edges[t][k].target, ws[i])
    ensures forall i :: 0 <= i < |ws| ==> IsWalk(g, t, Prefixed(k, ws)[i])
    ensures Entries(g, path, t, Prefixed(k, ws)) == Entries(g, path + [g.edges[t][k].step], g.edges[t][k].target, ws)
  {
    var e, ps := g.edges[t][k], Prefixed(k, ws);
    forall i | 0 <= i < |ws|
      ensures IsWalk(g, t, ps[i]) && EntryOf(g, path, t, ps[i]) == EntryOf(g, path + [e.step], e.target, ws[i])
    {
      assert ps[i][1..] == ws[i] && ps[i][0] == k;
      assert path + Spelled(g, t, ps[i]) == (path + [e.step]) + Spelled(g, e.target, ws[i]);
    }
  }

  /** Following edge k adds the entries of the walks that start with it. */
  lemma PartNext(g: Graph, path: seq<string>, anc: seq<TypeId>, t: TypeId, k: nat, e: Edge)
    requires t < |g.edges| && k < |g.edges[t]| && g.edges[t][k] == e
    ensures Part(g, path, anc, t, k + 1) == Part(g, path, anc, t, k) + All(g, path + [e.step], anc, e.target)
  {
    var ws := Walks(g, anc, e.target);
    EntriesPrefixed(g, path, t, k, ws);
    EntriesConcat(g, path, t, EdgeWalks(g, anc, t, k), Prefixed(k, ws));
  }

  lemma Associate(a: seq<Entry>, b: seq<Entry>, c: seq<Entry>)
    ensures a + (b + c) == (a + b) + c
  {}

  /** A call of DoGather that has not met an ancestor: where it is, how it came there, what was recorded. */
  datatype Visit = Visit(path: seq<string>, ancestors: seq<TypeId>, tid: TypeId, recorded: seq<Entry>) {

    /** The output when the first n edges have been followed. */
    ghost function Output(g: Graph, n: nat): seq<Entry> {
      recorded + [(tid, Joined(path))] + Part(g, path, ancestors + [tid], tid, n)
    }

    lemma OutputNext(g: Graph, k: nat, e: Edge)
      requires tid < |g.edges| && k < |g.edges[tid]| && g.edges[tid][k] == e
      ensures Output(g, k + 1) == Output(g, k) + All(g, path + [e.step], ancestors + [tid], e.target)
    {
      PartNext(g, path, ancestors + [tid], tid, k, e);
    }

    lemma OutputAll(g: Graph)
      requires tid < |g.edges|
      ensures Output(g, 0) == recorded + [(tid, Joined(path))]
      ensures recorded + All(g, path, ancestors, tid)
           == if tid in ancestors then recorded else Output(g, |g.edges[tid]|)
    {
      AllIs(g, path, ancestors, tid);
      PartNone(g, path, ancestors + [tid], tid);
      if tid in ancestors {
        assert recorded + [] == recorded;
      } else {
        Associate(recorded, [(tid, Joined(path))], Part(g, path, ancestors + [tid], tid, |g.edges[tid]|));
      }
    }
  }

  lemma LessRoom(g: Graph, anc: seq<TypeId>, t: TypeId)
    requires t < |g.edges| && t !in anc
    ensures Room(g, anc + [t]) < Room(g, anc)
  {
    assert Unvisited(g, anc) == Unvisited(g, anc + [t]) + {t};
  }

  // ----- the graph of a registry

  ghost function AttributePart(reg: Registry, tid: TypeId): seq<Edge>
    requires tid < |reg.types|
  {
    AttributeEdges(reg, reg.types[tid].attributes, |reg.types[tid].attributes|)
  }

  /** The edges of a TypeId in the order in which DoGather follows them. */
  ghost function EdgesOf(reg: Registry, aggregates: seq<(TypeId, TypeId)>, tid: TypeId): seq<Edge>
    requires tid < |reg.types|
  {
    AttributePart(reg, tid) + ChildEdges(reg, tid, |reg.types|) + AggregateEdges(reg, tid, aggregates, |aggregates|)
  }

  ghost function GraphOf(reg: Registry, aggregates: seq<(TypeId, TypeId)>): Graph {
    Graph(seq(|reg.types|, t requires 0 <= t < |reg.types| => EdgesOf(reg, aggregates, t)))
  }

  lemma {:induction false} AttributePrefix(reg: Registry, attrs: seq<Attribute>, i: nat, n: nat)
    requires i <= n <= |attrs|
    ensures AttributeEdges(reg, attrs, i) <= AttributeEdges(reg, attrs, n)
  {
    if i < n {
      AttributePrefix(reg, attrs, i, n - 1);
    }
  }

  lemma {:induction false} ChildPrefix(reg: Registry, tid: TypeId, i: nat, n: nat)
    requires i <= n
    ensures ChildEdges(reg, tid, i) <= ChildEdges(reg, tid, n)
  {
    if i < n {
      ChildPrefix(reg, tid, i, n - 1);
    }
  }

  lemma {:induction false} AggregatePrefix(reg: Registry, tid: TypeId, pairs: seq<(TypeId, TypeId)>, i: nat, n: nat)
    requires i <= n <= |pairs|
    ensures AggregateEdges(reg, tid, pairs, i) <= AggregateEdges(reg, tid, pairs, n)
  {
    if i < n {
      AggregatePrefix(reg, tid, pairs, i, n - 1);
    }
  }

  /** One of the first n attributes is a pointer, not to Object, or a container, and gives the edge. */
  ghost predicate AttributeLeads(reg: Registry, attrs: seq<Attribute>, n: nat, e: Edge)
    requires n <= |attrs|
  {
    exists i :: 0 <= i < n && e in AttributeEdge(reg, attrs[i])
  }

  lemma {:induction false} InAttributeEdges(reg: Registry, attrs: seq<Attribute>, n: nat, e: Edge)
    requires n <= |attrs|
    ensures e in AttributeEdges(reg, attrs, n) <==> AttributeLeads(reg, attrs, n, e)
  {
    if n == 0 {
    } else {
      InAttributeEdges(reg, attrs, n - 1, e);
    }
  }

  lemma {:induction false} InChildEdges(reg: Registry, tid: TypeId, n: nat, e: Edge)
    ensures e in ChildEdges(reg, tid, n) <==>
      e.target < n && (e.target, tid) in reg.childOf && e.step == "$" + NameOf(reg, e.target)
  {
    if n == 0 {
    } else {
      InChildEdges(reg, tid, n - 1, e);
    }
  }

  lemma {:induction false} InAggregateEdges(reg: Registry, tid: TypeId, pairs: seq<(TypeId, TypeId)>, n: nat, e: Edge)
    requires n <= |pairs|
    ensures e in AggregateEdges(reg, tid, pairs, n) <==>
      e.step == "$" + NameOf(reg, e.target) && ((tid, e.target) in pairs[..n] || (e.target, tid) in pairs[..n])
  {
    if n == 0 {
    } else {
      InAggregateEdges(reg, tid, pairs, n - 1, e);
      assert pairs[..n] == pairs[..n - 1] + [pairs[n - 1]];
    }
  }

  lemma AttributeMeans(reg: Registry, attrs: seq<Attribute>, e: Edge)
    ensures AttributeLeads(reg, attrs, |attrs|, e) <==>
      || (Pointer(e.step, e.target) in attrs && e.target != reg.objectId)
      || (exists name :: Container(name, e.target) in attrs && e.step == name + "/[i]")
  {
    if AttributeLeads(reg, attrs, |attrs|, e) {
      var i :| 0 <= i < |attrs| && e in AttributeEdge(reg, attrs[i]);
      assert attrs[i] in attrs;
    }
    if name :| Container(name, e.target) in attrs && e.step == name + "/[i]" {
      var i :| 0 <= i < |attrs| && attrs[i] == Container(name, e.target);
      assert e in AttributeEdge(reg, attrs[i]);
    }
    if Pointer(e.step, e.target) in attrs && e.target != reg.objectId {
      var i :| 0 <= i < |attrs| && attrs[i] == Pointer(e.step, e.target);
      assert e in AttributeEdge(reg, attrs[i]);
    }
  }

  /** What DoGather follows: pointers but not to Object, containers, children, aggregations both ways. */
  lemma EdgesExactly(reg: Registry, aggregates: seq<(TypeId, TypeId)>, tid: TypeId, e: Edge)
    requires tid < |reg.types|
    ensures e in EdgesOf(reg, aggregates, tid) <==>
      || (Pointer(e.step, e.target) in reg.types[tid].attributes && e.target != reg.objectId)
      || (exists name :: Container(name, e.target) in reg.types[tid].attributes && e.step == name + "/[i]")
      || (e.step == "$" + NameOf(reg, e.target)
          && ((e.target < |reg.types| && (e.target, tid) in reg.childOf)
              || (tid, e.target) in aggregates || (e.target, tid) in aggregates))
  {
    var attrs := reg.types[tid].attributes;
    InAttributeEdges(reg, attrs, |attrs|, e);
    AttributeMeans(reg, attrs, e);
    InChildEdges(reg, tid, |reg.types|, e);
    InAggregateEdges(reg, tid, aggregates, |aggregates|, e);
    assert aggregates[..|aggregates|] == aggregates;
  }

  /** How many edges come before attribute i, before child j, before aggregation i. */
  ghost function AttributesBefore(reg: Registry, tid: TypeId, i: nat): nat
    requires tid < |reg.types| && i <= |reg.types[tid].attributes|
  {
    |AttributeEdges(reg, reg.types[tid].attributes, i)|
  }

  ghost function ChildrenBefore(reg: Registry, tid: TypeId, j: nat): nat
    requires tid < |reg.types|
  {
    |AttributePart(reg, tid)| + |ChildEdges(reg, tid, j)|
  }

  ghost function AggregatesBefore(reg: Registry, tid: TypeId, aggregates: seq<(TypeId, TypeId)>, i: nat): nat
    requires tid < |reg.types| && i <= |aggregates|
  {
    |AttributePart(reg, tid)| + |ChildEdges(reg, tid, |reg.types|)| + |AggregateEdges(reg, tid, aggregates, i)|
  }

  /** Where one kind of edge ends the next begins. */
  lemma EdgesInThreeParts(g: Graph, reg: Registry, aggregates: seq<(TypeId, TypeId)>, tid: TypeId)
    requires g == GraphOf(reg, aggregates) && tid < |reg.types|
    ensures |AttributePart(reg, tid)| == ChildrenBefore(reg, tid, 0)
    ensures ChildrenBefore(reg, tid, |reg.types|) == AggregatesBefore(reg, tid, aggregates, 0)
    ensures |g.edges| == |reg.types| && AggregatesBefore(reg, tid, aggregates, |aggregates|) == |g.edges[tid]|
  {
    assert g.edges[tid] == EdgesOf(reg, aggregates, tid);
  }

  /** Edge e is number n of the TypeId. */
  ghost predicate EdgeAt(g: Graph, tid: TypeId, n: nat, e: Edge) {
    tid < |g.edges| && n < |g.edges[tid]| && g.edges[tid][n] == e
  }

  /** The edge of attribute i, if it has one, is the next one to follow. */
  lemma AttributeEdgeAt(g: Graph, reg: Registry, aggregates: seq<(TypeId, TypeId)>, tid: TypeId, i: nat)
    requires g == GraphOf(reg, aggregates) && tid < |reg.types| && i < |reg.types[tid].attributes|
    ensures var es := AttributeEdge(reg, reg.types[tid].attributes[i]);
      && AttributesBefore(reg, tid, i + 1) == AttributesBefore(reg, tid, i) + |es|
      && (es != [] ==> EdgeAt(g, tid, AttributesBefore(reg, tid, i), es[0]))
  {
    var attrs := reg.types[tid].attributes;
    AttributePrefix(reg, attrs, i + 1, |attrs|);
    var a, es := AttributeEdges(reg, attrs, i), AttributeEdge(reg, attrs[i]);
    if es != [] {
      assert AttributePart(reg, tid)[|a|] == (a + es)[|a|] == es[0];
      assert g.edges[tid] == EdgesOf(reg, aggregates, tid);
    }
  }

  /** If type j is a child its edge is the next one to follow. */
  lemma ChildEdgeAt(g: Graph, reg: Registry, aggregates: seq<(TypeId, TypeId)>, tid: TypeId, j: nat)
    requires g == GraphOf(reg, aggregates) && tid < |reg.types| && j < |reg.types|
    ensures var es := ChildEdge(reg, tid, j);
      && ChildrenBefore(reg, tid, j + 1) == ChildrenBefore(reg, tid, j) + |es|
      && (es != [] ==> EdgeAt(g, tid, ChildrenBefore(reg, tid, j), es[0]))
  {
    ChildPrefix(reg, tid, j + 1, |reg.types|);
    var c, es := ChildEdges(reg, tid, j), ChildEdge(reg, tid, j);
    if es != [] {
      assert ChildEdges(reg, tid, |reg.types|)[|c|] == (c + es)[|c|] == es[0];
      assert g.edges[tid] == EdgesOf(reg, aggregates, tid);
    }
  }

  /** The edge of aggregation i, if it involves the type, is the next one to follow. */
  lemma AggregateEdgeAt(g: Graph, reg: Registry, aggregates: seq<(TypeId, TypeId)>, tid: TypeId, i: nat)
    requires g == GraphOf(reg, aggregates) && tid < |reg.types| && i < |aggregates|
    ensures var es := AggregateEdge(reg, tid, aggregates[i]);
      && AggregatesBefore(reg, tid, aggregates, i + 1) == AggregatesBefore(reg, tid, aggregates, i) + |es|
      && (es != [] ==> EdgeAt(g, tid, AggregatesBefore(reg, tid, aggregates, i), es[0]))
  {
    AggregatePrefix(reg, tid, aggregates, i + 1, |aggregates|);
    var c, es := AggregateEdges(reg, tid, aggregates, i), AggregateEdge(reg, tid, aggregates[i]);
    if es != [] {
      assert AggregateEdges(reg, tid, aggregates, |aggregates|)[|c|] == (c + es)[|c|] == es[0];
      assert g.edges[tid] == EdgesOf(reg, aggregates, tid);
    }
  }

  /** The recorded paths of one TypeId. */
  ghost function PathsTo(output: seq<Entry>, tid: TypeId): seq<string> {
    if output == [] then []
    else PathsTo(output[..|output| - 1], tid) + (if output[|output| - 1].0 == tid then [output[|output| - 1].1] else [])
  }

  class StaticInformation {
    const reg: Registry
    const aggregates: seq<(TypeId, TypeId)>
    ghost const graph: Graph
    var output: seq<Entry>
    var currentPath: seq<string>
    var alreadyProcessed: seq<TypeId>

    ghost predicate Valid() {
      RegistryOk(reg, aggregates) && graph == GraphOf(reg, aggregates)
    }

    constructor (reg: Registry, aggregates: seq<(TypeId, TypeId)>)
      requires RegistryOk(reg, aggregates)
      ensures Valid() && this.reg == reg && this.aggregates == aggregates
      ensures output == [] && currentPath == [] && alreadyProcessed == []
    {
      this.reg, this.aggregates := reg, aggregates;
      this.graph := GraphOf(reg, aggregates);
      output, currentPath, alreadyProcessed := [], [], [];
    }

    method HasAlreadyBeenProcessed(tid: TypeId) returns (found: bool)
      ensures found <==> tid in alreadyProcessed
    {
      for i := 0 to |alreadyProcessed|
        invariant tid !in alreadyProcessed[..i]
      {
        if alreadyProcessed[i] == tid {
          return true;
        }
      }
      return false;
    }

    method GetCurrentPath() returns (path: string)
      ensures path == Joined(currentPath)
    {
      path := "";
      for i := 0 to |currentPath|
        invariant path == Joined(currentPath[..i])
      {
        assert currentPath[..i + 1][..i] == currentPath[..i];
        path := path + ("/" + currentPath[i]);
      }
      assert currentPath[..|currentPath|] == currentPath;
    }

    method RecordOutput(tid: TypeId)
      modifies this
      ensures output == old(output) + [(tid, Joined(currentPath))]
      ensures currentPath == old(currentPath) && alreadyProcessed == old(alreadyProcessed)
    {
      var path := GetCurrentPath();
      output := output + [(tid, path)];
    }

    /** The recorded paths of a TypeId, in the order of recording. */
    method Get(tid: TypeId) returns (paths: seq<string>)
      ensures paths == PathsTo(output, tid)
    {
      paths := [];
      for i := 0 to |output|
        invariant paths == PathsTo(output[..i], tid)
      {
        assert output[..i + 1][..i] == output[..i];
        if output[i].0 == tid {
          paths := paths + [output[i].1];
        }
      }
      assert output[..|output|] == output;
    }

    /** DoGather is at the visit's TypeId: the stacks are as they were when it came there. */
    ghost predicate At(v: Visit)
      reads this
    {
      && v.tid < |reg.types| && v.tid !in v.ancestors
      && currentPath == v.path && alreadyProcessed == v.ancestors
    }

    /** Follow edge k of the TypeId, with its step on the path and the TypeId among the ancestors. */
    method Follow(tid: TypeId, step: string, target: TypeId, ghost v: Visit, ghost k: nat)
      requires Valid() && At(v) && tid == v.tid && target < |reg.types| && output == v.Output(graph, k)
      requires EdgeAt(graph, tid, k, Edge(step, target))
      modifies this
      ensures At(v) && output == v.Output(graph, k + 1)
      decreases Room(graph, v.ancestors), 0
    {
      v.OutputNext(graph, k, Edge(step, target));
      LessRoom(graph, v.ancestors, tid);
      currentPath := currentPath + [step];
      alreadyProcessed := alreadyProcessed + [tid];
      DoGather(target);
      alreadyProcessed := alreadyProcessed[..|alreadyProcessed| - 1];
      currentPath := currentPath[..|currentPath| - 1];
    }

    /**
     Record tid and everything that simple walks from it lead to.  The stacks come back as they
     were, and the recursion ends because each level takes one TypeId more for an ancestor.
     */
    method DoGather(tid: TypeId)
      requires Valid() && tid < |reg.types|
      modifies this
      ensures currentPath == old(currentPath) && alreadyProcessed == old(alreadyProcessed)
      ensures output == old(output) + All(graph, currentPath, alreadyProcessed, tid)
      decreases Room(graph, alreadyProcessed), 3
    {
      ghost var v := Visit(currentPath, alreadyProcessed, tid, output);
      var found := HasAlreadyBeenProcessed(tid);
      v.OutputAll(graph);
      if found {
        return;
      }
      RecordOutput(tid);
      EdgesInThreeParts(graph, reg, aggregates, tid);
      GatherAttributes(tid, v);
      GatherChildren(tid, v);
      GatherAggregates(tid, v);
    }

    /** The loop over the attributes. */
    method GatherAttributes(tid: TypeId, ghost v: Visit)
      requires Valid() && At(v) && tid == v.tid && output == v.Output(graph, 0)
      modifies this
      ensures At(v) && output == v.Output(graph, |AttributePart(reg, tid)|)
      decreases Room(graph, v.ancestors), 1
    {
      for i := 0 to |reg.types[tid].attributes|
        invariant At(v) && output == v.Output(graph, AttributesBefore(reg, tid, i))
      {
        AttributeEdgeAt(graph, reg, aggregates, tid, i);
        ghost var n := AttributesBefore(reg, tid, i);
        var info := reg.types[tid].attributes[i];
        assert AttributeOk(reg, info);
        match info {
          case Pointer(name, pointee) =>
            if pointee == reg.objectId {
              continue;
            }
            Follow(tid, name, pointee, v, n);
          case Container(name, item) =>
            Follow(tid, name + "/[i]", item, v, n);
          case Plain(_) =>
        }
      }
    }

    /** The loop over the registered TypeIds that are children of tid. */
    method GatherChildren(tid: TypeId, ghost v: Visit)
      requires Valid() && At(v) && tid == v.tid && output == v.Output(graph, ChildrenBefore(reg, tid, 0))
      modifies this
      ensures At(v) && output == v.Output(graph, ChildrenBefore(reg, tid, |reg.types|))
      decreases Room(graph, v.ancestors), 1
    {
      for j := 0 to |reg.types|
        invariant At(v) && output == v.Output(graph, ChildrenBefore(reg, tid, j))
      {
        ChildEdgeAt(graph, reg, aggregates, tid, j);
        if (j, tid) in reg.childOf {
          Follow(tid, "$" + reg.types[j].name, j, v, ChildrenBefore(reg, tid, j));
        }
      }
    }

    /** The other side of an aggregation. */
    method OtherSide(tid: TypeId, item: (TypeId, TypeId)) returns (other: TypeId)
      requires item.0 == tid || item.1 == tid
      ensures other == item.0 || other == item.1
      ensures AggregateEdge(reg, tid, item) == [Edge("$" + NameOf(reg, other), other)]
    {
      other := item.0;
      if item.0 == tid {
        other := item.1;
      }
      if item.1 == tid {
        other := item.0;
      }
    }

    /** The loop over the aggregations that involve tid. */
    method GatherAggregates(tid: TypeId, ghost v: Visit)
      requires Valid() && At(v) && tid == v.tid && output == v.Output(graph, AggregatesBefore(reg, tid, aggregates, 0))
      modifies this
      ensures At(v) && output == v.Output(graph, AggregatesBefore(reg, tid, aggregates, |aggregates|))
      decreases Room(graph, v.ancestors), 2
    {
      for i := 0 to |aggregates|
        invariant At(v) && output == v.Output(graph, AggregatesBefore(reg, tid, aggregates, i))
      {
        GatherAggregate(tid, i, v);
      }
    }

    method GatherAggregate(tid: TypeId, i: nat, ghost v: Visit)
      requires Valid() && At(v) && tid == v.tid && i < |aggregates|
      requires output == v.Output(graph, AggregatesBefore(reg, tid, aggregates, i))
      modifies this
      ensures At(v) && output == v.Output(graph, AggregatesBefore(reg, tid, aggregates, i + 1))
      decreases Room(graph, v.ancestors), 1
    {
      AggregateEdgeAt(graph, reg, aggregates, tid, i);
      var item := aggregates[i];
      if item.0 == tid || item.1 == tid {
        var other := OtherSide(tid, item);
        Follow(tid, "$" + reg.types[other].name, other, v, AggregatesBefore(reg, tid, aggregates, i));
      }
    }

    /** DoGather; the sorting and pruning that follows works on a copy and changes nothing. */
    method Gather(tid: TypeId)
      requires Valid() && tid < |reg.types| && alreadyProcessed == [] && currentPath == []
      modifies this
      ensures alreadyProcessed == [] && currentPath == []
      ensures output == old(output) + Recorded(graph, tid)
    {
      DoGather(tid);
    }

    /** What GetTypicalAggregations does at its end: one search for each root object, all into one output. */
    method GatherAll(roots: seq<TypeId>)
      requires Valid() && (forall i :: 0 <= i < |roots| ==> roots[i] < |reg.types|)
      requires alreadyProcessed == [] && currentPath == []
      modifies this
      ensures alreadyProcessed == [] && currentPath == []
      ensures output == old(output) + RecordedFrom(graph, roots)
    {
      for i := 0 to |roots|
        invariant alreadyProcessed == [] && currentPath == []
        invariant output == old(output) + RecordedFrom(graph, roots[..i])
      {
        assert roots[..i + 1][..i] == roots[..i];
        Associate(old(output), RecordedFrom(graph, roots[..i]), Recorded(graph, roots[i]));
        Gather(roots[i]);
      }
      assert roots[..|roots|] == roots;
    }
  }

  // ----- what the recorded output means

  /** From an empty stack: each simple walk from the root once, and nothing else. */
  lemma GathersSimpleWalks(g: Graph, root: TypeId)
    requires root < |g.edges|
    ensures forall w :: w in Walks(g, [], root) <==> SimpleWalk(g, root, w)
    ensures Distinct(Walks(g, [], root))
  {
    forall w ensures w in Walks(g, [], root) <==> SimpleWalk(g, root, w) {
      WalksExact(g, [], root, w);
      if IsWalk(g, root, w) {
        assert [] + Visited(g, root, w) == Visited(g, root, w);
      }
    }
    WalksOrdered(g, [], root);
    var ws := Walks(g, [], root);
    forall i, j | 0 <= i < j < |ws| ensures ws[i] != ws[j] {
      BeforeIrreflexive(ws[i]);
    }
  }

  lemma {:induction false} InPathsTo(output: seq<Entry>, tid: TypeId, path: string)
    ensures path in PathsTo(output, tid) <==> (tid, path) in output
  {
    if output == [] {
    } else {
      var m := |output| - 1;
      InPathsTo(output[..m], tid, path);
      assert output == output[..m] + [output[m]];
    }
  }

  /** A path is listed for a TypeId exactly when a simple walk from the root ends there and spells it. */
  lemma PathsAreSimpleWalks(g: Graph, root: TypeId, tid: TypeId, path: string)
    requires root < |g.edges|
    ensures path in PathsTo(Recorded(g, root), tid)
       <==> exists w :: SimpleWalk(g, root, w) && End(g, root, w) == tid && path == Joined(Spelled(g, root, w))
  {
    var ws := Walks(g, [], root);
    var es := Entries(g, [], root, ws);
    GathersSimpleWalks(g, root);
    InPathsTo(es, tid, path);
    if (tid, path) in es {
      var i :| 0 <= i < |es| && es[i] == (tid, path);
      assert ws[i] in ws && [] + Spelled(g, root, ws[i]) == Spelled(g, root, ws[i]);
    }
    if w :| SimpleWalk(g, root, w) && End(g, root, w) == tid && path == Joined(Spelled(g, root, w)) {
      var i :| 0 <= i < |ws| && ws[i] == w;
      assert [] + Spelled(g, root, w) == Spelled(g, root, w);
      assert es[i] == (tid, path);
    }
  }
}
