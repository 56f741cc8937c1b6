/**
 When the path search of utils/print-introspected-doxygen.cc records an entry twice, said of the registry:
 which types must be linked, and that the aggregations which the program itself registers link two so.
 */
module RegistryRepeats {
  import opened Sequences
  import opened Introspection
  import opened IntrospectionRepeats

  // ----- the registry behind the graph

  /** Attribute names are distinct, have no slash, are not "[i]" and do not begin with a dollar sign. */
  ghost predicate AttributeNamesOk(attrs: seq<Attribute>) {
    && (forall i :: 0 <= i < |attrs| ==> CleanName(attrs[i].name) && !("$" <= attrs[i].name))
    && (forall i, j :: 0 <= i < j < |attrs| ==> attrs[i].name != attrs[j].name)
  }

  /** Names as TypeIds and attributes have them: each one names one thing, and none looks like a path. */
  ghost predicate NamesOk(reg: Registry) {
    && (forall t :: 0 <= t < |reg.types| ==> '/' !in reg.types[t].name && AttributeNamesOk(reg.types[t].attributes))
    && (forall s, t :: 0 <= s < t < |reg.types| ==> reg.types[s].name != reg.types[t].name)
  }

  predicate Connects(pair: (TypeId, TypeId), t: TypeId, u: TypeId) {
    pair == (t, u) || pair == (u, t)
  }

  /** How many of the aggregations connect t and u. */
  function Links(pairs: seq<(TypeId, TypeId)>, t: TypeId, u: TypeId): nat {
    if pairs == [] then 0
    else Links(pairs[..|pairs| - 1], t, u) + (if Connects(pairs[|pairs| - 1], t, u) then 1 else 0)
  }

  /** Type u is aggregated to t twice, or once while also a child type of it. */
  ghost predicate DoublyLinked(reg: Registry, aggregates: seq<(TypeId, TypeId)>, t: TypeId, u: TypeId) {
    u < |reg.types| && (if (u, t) in reg.childOf then 1 else 0) + Links(aggregates, t, u) >= 2
  }

  function LinkEdge(reg: Registry, u: TypeId): Edge {
    Edge("$" + NameOf(reg, u), u)
  }

  // ----- how often an edge comes

  ghost function Occurs(es: seq<Edge>, e: Edge): nat {
    if es == [] then 0 else Occurs(es[..|es| - 1], e) + (if es[|es| - 1] == e then 1 else 0)
  }

  lemma {:induction false} OccursConcat(a: seq<Edge>, b: seq<Edge>, e: Edge)
    ensures Occurs(a + b, e) == Occurs(a, e) + Occurs(b, e)
  {
    if b == [] {
      assert a + b == a;
    } else {
      var m := |b| - 1;
      assert (a + b)[..|a + b| - 1] == a + b[..m];
      OccursConcat(a, b[..m], e);
    }
  }

  lemma {:induction false} OccursIs(es: seq<Edge>, e: Edge)
    ensures Occurs(es, e) >= 1 <==> e in es
    ensures Occurs(es, e) >= 2 <==> exists j, k :: 0 <= j < k < |es| && es[j] == e && es[k] == e
  {
    if es == [] {
    } else {
      var m := |es| - 1;
      OccursIs(es[..m], e);
      assert e in es <==> e in es[..m] || es[m] == e;
      if j, k :| 0 <= j < k < |es| && es[j] == e && es[k] == e {
        assert es[..m][j] == e;
        assert k < m ==> es[..m][k] == e;
      }
      if e in es[..m] {
        var j :| 0 <= j < |es[..m]| && es[..m][j] == e;
        assert es[j] == e;
      }
    }
  }

  lemma OccursOnce(es: seq<Edge>, e: Edge)
    requires |es| <= 1
    ensures Occurs(es, e) == if e in es then 1 else 0
  {
    OccursIs(es, e);
  }

  lemma OneMoreEdge(before: seq<Edge>, last: seq<Edge>, e: Edge)
    requires |last| <= 1 && Occurs(before, e) <= 1 && (e in last ==> e !in before)
    ensures Occurs(before + last, e) <= 1
  {
    OccursConcat(before, last, e);
    OccursIs(before, e);
    OccursOnce(last, e);
  }

  lemma LastChild(reg: Registry, t: TypeId, n: nat, e: Edge) returns (before: seq<Edge>, last: seq<Edge>)
    requires n > 0
    ensures before == ChildEdges(reg, t, n - 1) && ChildEdges(reg, t, n) == before + last
    ensures |last| <= 1 && (e in last ==> e !in before)
  {
    before := ChildEdges(reg, t, n - 1);
    last := ChildEdge(reg, t, n - 1);
    InChildEdges(reg, t, n - 1, e);
  }

  lemma {:induction false} ChildOnce(reg: Registry, t: TypeId, n: nat, e: Edge)
    ensures Occurs(ChildEdges(reg, t, n), e) <= 1
  {
    if n == 0 {
    } else {
      var before, last := LastChild(reg, t, n, e);
      ChildOnce(reg, t, n - 1, e);
      OneMoreEdge(before, last, e);
    }
  }

  lemma ChildCount(reg: Registry, t: TypeId, n: nat, u: TypeId)
    ensures Occurs(ChildEdges(reg, t, n), LinkEdge(reg, u)) == if u < n && (u, t) in reg.childOf then 1 else 0
  {
    ChildOnce(reg, t, n, LinkEdge(reg, u));
    OccursIs(ChildEdges(reg, t, n), LinkEdge(reg, u));
    InChildEdges(reg, t, n, LinkEdge(reg, u));
  }

  lemma AggregateOnce(reg: Registry, t: TypeId, pair: (TypeId, TypeId), u: TypeId)
    ensures Occurs(AggregateEdge(reg, t, pair), LinkEdge(reg, u)) == if Connects(pair, t, u) then 1 else 0
  {
    OccursOnce(AggregateEdge(reg, t, pair), LinkEdge(reg, u));
    assert LinkEdge(reg, u).target == u;
  }

  lemma {:induction false} AggregateCount(reg: Registry, t: TypeId, pairs: seq<(TypeId, TypeId)>, n: nat, u: TypeId)
    requires n <= |pairs|
    ensures Occurs(AggregateEdges(reg, t, pairs, n), LinkEdge(reg, u)) == Links(pairs[..n], t, u)
  {
    if n == 0 {
    } else {
      AggregateCount(reg, t, pairs, n - 1, u);
      assert pairs[..n][..n - 1] == pairs[..n - 1];
      OccursConcat(AggregateEdges(reg, t, pairs, n - 1), AggregateEdge(reg, t, pairs[n - 1]), LinkEdge(reg, u));
      AggregateOnce(reg, t, pairs[n - 1], u);
    }
  }

  /** An attribute's step is its name, perhaps with an index, so it tells which attribute it is. */
  lemma OneAttribute(reg: Registry, attrs: seq<Attribute>, i: nat, j: nat, e: Edge, f: Edge)
    requires AttributeNamesOk(attrs) && i < |attrs| && j < |attrs| && e.step == f.step
    requires e in AttributeEdge(reg, attrs[i]) && f in AttributeEdge(reg, attrs[j])
    ensures i == j && e == f && CleanStep(e.step) && !("$" <= e.step)
  {
    var a, b := attrs[i], attrs[j];
    assert a.Pointer? || a.Container?;
    assert b.Pointer? || b.Container?;
    if a.Container? {
      assert e.step == a.name + "/[i]" && e.step[|a.name|] == '/';
    }
    if b.Container? {
      assert f.step == b.name + "/[i]" && f.step[|b.name|] == '/';
    }
    if a.Container? && b.Container? {
      assert a.name == e.step[..|e.step| - 4] == b.name;
    }
    assert a.name == b.name;
  }

  lemma AttributeStep(reg: Registry, attrs: seq<Attribute>, e: Edge)
    requires AttributeNamesOk(attrs) && e in AttributeEdges(reg, attrs, |attrs|)
    ensures CleanStep(e.step) && !("$" <= e.step)
  {
    InAttributeEdges(reg, attrs, |attrs|, e);
    var i :| 0 <= i < |attrs| && e in AttributeEdge(reg, attrs[i]);
    OneAttribute(reg, attrs, i, i, e, e);
  }

  lemma LastAttribute(reg: Registry, attrs: seq<Attribute>, n: nat, e: Edge) returns (before: seq<Edge>, last: seq<Edge>)
    requires AttributeNamesOk(attrs) && 0 < n <= |attrs|
    ensures before == AttributeEdges(reg, attrs, n - 1) && AttributeEdges(reg, attrs, n) == before + last
    ensures |last| <= 1 && (e in last ==> e !in before)
  {
    before := AttributeEdges(reg, attrs, n - 1);
    last := AttributeEdge(reg, attrs[n - 1]);
    if e in last {
      InAttributeEdges(reg, attrs, n - 1, e);
      if i :| 0 <= i < n - 1 && e in AttributeEdge(reg, attrs[i]) {
        OneAttribute(reg, attrs, i, n - 1, e, e);
        assert false;
      }
    }
  }

  lemma {:induction false} AttributeCount(reg: Registry, attrs: seq<Attribute>, n: nat, e: Edge)
    requires AttributeNamesOk(attrs) && n <= |attrs|
    ensures Occurs(AttributeEdges(reg, attrs, n), e) <= 1
  {
    if n == 0 {
    } else {
      var before, last := LastAttribute(reg, attrs, n, e);
      AttributeCount(reg, attrs, n - 1, e);
      OneMoreEdge(before, last, e);
    }
  }

  /** An edge comes as often as attributes, child types and aggregations give it. */
  lemma EdgeCount(reg: Registry, aggregates: seq<(TypeId, TypeId)>, t: TypeId, e: Edge)
    requires t < |reg.types|
    ensures Occurs(EdgesOf(reg, aggregates, t), e) == Occurs(AttributePart(reg, t), e)
      + Occurs(ChildEdges(reg, t, |reg.types|), e) + Occurs(AggregateEdges(reg, t, aggregates, |aggregates|), e)
  {
    var a, c, p := AttributePart(reg, t), ChildEdges(reg, t, |reg.types|), AggregateEdges(reg, t, aggregates, |aggregates|);
    OccursConcat(a + c, p, e);
    OccursConcat(a, c, e);
  }

  lemma LinkCount(reg: Registry, aggregates: seq<(TypeId, TypeId)>, t: TypeId, u: TypeId)
    requires t < |reg.types| && u < |reg.types|
    ensures Occurs(EdgesOf(reg, aggregates, t), LinkEdge(reg, u)) == Occurs(AttributePart(reg, t), LinkEdge(reg, u))
      + (if (u, t) in reg.childOf then 1 else 0) + Links(aggregates, t, u)
  {
    EdgeCount(reg, aggregates, t, LinkEdge(reg, u));
    ChildCount(reg, t, |reg.types|, u);
    AggregateCount(reg, t, aggregates, |aggregates|, u);
    assert aggregates[..|aggregates|] == aggregates;
  }

  lemma TwoEdgesCount(reg: Registry, aggregates: seq<(TypeId, TypeId)>, t: TypeId, u: TypeId)
    requires t < |reg.types|
    ensures TwoEdges(GraphOf(reg, aggregates), t, u)
       <==> exists e :: Occurs(EdgesOf(reg, aggregates, t), e) >= 2 && e.target == u
  {
    var es := EdgesOf(reg, aggregates, t);
    assert GraphOf(reg, aggregates).edges[t] == es;
    if TwoEdges(GraphOf(reg, aggregates), t, u) {
      var j, k :| 0 <= j < k < |es| && es[j] == es[k] && es[k].target == u;
      OccursIs(es, es[k]);
    }
    if e :| Occurs(es, e) >= 2 && e.target == u {
      OccursIs(es, e);
    }
  }

  /** Doubly linked types have two equal edges, whatever the names. */
  lemma DoubleLinkTwoEdges(reg: Registry, aggregates: seq<(TypeId, TypeId)>, t: TypeId, u: TypeId)
    requires t < |reg.types| && DoublyLinked(reg, aggregates, t, u)
    ensures TwoEdges(GraphOf(reg, aggregates), t, u)
  {
    LinkCount(reg, aggregates, t, u);
    TwoEdgesCount(reg, aggregates, t, u);
    assert LinkEdge(reg, u).target == u;
  }

  /** With proper names nothing else has. */
  lemma TwoEdgesDoubleLink(reg: Registry, aggregates: seq<(TypeId, TypeId)>, t: TypeId, u: TypeId)
    requires NamesOk(reg) && t < |reg.types| && u < |reg.types| && TwoEdges(GraphOf(reg, aggregates), t, u)
    ensures DoublyLinked(reg, aggregates, t, u)
  {
    TwoEdgesCount(reg, aggregates, t, u);
    var e :| Occurs(EdgesOf(reg, aggregates, t), e) >= 2 && e.target == u;
    EdgeCount(reg, aggregates, t, e);
    AttributeCount(reg, reg.types[t].attributes, |reg.types[t].attributes|, e);
    if e in AttributePart(reg, t) {
      AttributeStep(reg, reg.types[t].attributes, e);
    }
    OccursIs(AttributePart(reg, t), e);
    OccursIs(ChildEdges(reg, t, |reg.types|), e);
    OccursIs(AggregateEdges(reg, t, aggregates, |aggregates|), e);
    InChildEdges(reg, t, |reg.types|, e);
    InAggregateEdges(reg, t, aggregates, |aggregates|, e);
    assert e == LinkEdge(reg, u) && "$" <= e.step;
    LinkCount(reg, aggregates, t, u);
  }

  // ----- a registry with proper names gives a graph to which the condition applies

  /** An edge of the graph comes from an attribute or leads to a linked type. */
  lemma EdgeKinds(reg: Registry, aggregates: seq<(TypeId, TypeId)>, t: TypeId, e: Edge)
    requires RegistryOk(reg, aggregates) && t < |reg.types| && e in EdgesOf(reg, aggregates, t)
    ensures AttributeLeads(reg, reg.types[t].attributes, |reg.types[t].attributes|, e)
         || (e.target < |reg.types| && e == LinkEdge(reg, e.target))
  {
    var attrs := reg.types[t].attributes;
    InAttributeEdges(reg, attrs, |attrs|, e);
    InChildEdges(reg, t, |reg.types|, e);
    InAggregateEdges(reg, t, aggregates, |aggregates|, e);
  }

  lemma EdgesClean(reg: Registry, aggregates: seq<(TypeId, TypeId)>, t: TypeId, e: Edge)
    requires RegistryOk(reg, aggregates) && NamesOk(reg) && t < |reg.types| && e in EdgesOf(reg, aggregates, t)
    ensures CleanStep(e.step)
  {
    var attrs := reg.types[t].attributes;
    EdgeKinds(reg, aggregates, t, e);
    if AttributeLeads(reg, attrs, |attrs|, e) {
      InAttributeEdges(reg, attrs, |attrs|, e);
      AttributeStep(reg, attrs, e);
    } else {
      assert e.step[0] == '$' && '/' !in e.step;
    }
  }

  lemma SameStep(reg: Registry, aggregates: seq<(TypeId, TypeId)>, t: TypeId, e: Edge, f: Edge)
    requires RegistryOk(reg, aggregates) && NamesOk(reg) && t < |reg.types|
    requires e in EdgesOf(reg, aggregates, t) && f in EdgesOf(reg, aggregates, t) && e.step == f.step
    ensures e.target == f.target
  {
    var attrs := reg.types[t].attributes;
    EdgeKinds(reg, aggregates, t, e);
    EdgeKinds(reg, aggregates, t, f);
    if AttributeLeads(reg, attrs, |attrs|, e) && AttributeLeads(reg, attrs, |attrs|, f) {
      var i :| 0 <= i < |attrs| && e in AttributeEdge(reg, attrs[i]);
      var j :| 0 <= j < |attrs| && f in AttributeEdge(reg, attrs[j]);
      OneAttribute(reg, attrs, i, j, e, f);
    } else if AttributeLeads(reg, attrs, |attrs|, e) {
      InAttributeEdges(reg, attrs, |attrs|, e);
      AttributeStep(reg, attrs, e);
      assert false;
    } else if AttributeLeads(reg, attrs, |attrs|, f) {
      InAttributeEdges(reg, attrs, |attrs|, f);
      AttributeStep(reg, attrs, f);
      assert false;
    } else {
      assert NameOf(reg, e.target) == e.step[1..] == f.step[1..] == NameOf(reg, f.target);
    }
  }

  lemma GraphIsClean(reg: Registry, aggregates: seq<(TypeId, TypeId)>)
    requires RegistryOk(reg, aggregates) && NamesOk(reg)
    ensures StepsDetermine(GraphOf(reg, aggregates)) && CleanGraph(GraphOf(reg, aggregates))
  {
    var g := GraphOf(reg, aggregates);
    forall t | 0 <= t < |g.edges| ensures StepsDetermineAt(g.edges[t]) {
      var es := g.edges[t];
      forall j, k | 0 <= j < |es| && 0 <= k < |es| && es[j].step == es[k].step ensures es[j].target == es[k].target {
        SameStep(reg, aggregates, t, es[j], es[k]);
      }
    }
    forall t, k | 0 <= t < |g.edges| && 0 <= k < |g.edges[t]| ensures CleanStep(g.edges[t][k].step) {
      EdgesClean(reg, aggregates, t, g.edges[t][k]);
    }
  }

  /** A simple walk ends at a type that is doubly linked to one that the walk has not visited. */
  ghost predicate ReachesDoubleLink(reg: Registry, aggregates: seq<(TypeId, TypeId)>, root: TypeId) {
    var g := GraphOf(reg, aggregates);
    exists w: Walk, u: TypeId ::
      SimpleWalk(g, root, w) && DoublyLinked(reg, aggregates, End(g, root, w), u) && u !in Visited(g, root, w)
  }

  /**
   With proper names an entry is recorded twice exactly when a simple walk from the root reaches a type to
   which another, not yet visited, is aggregated twice, or once while also being its child type.
   */
  lemma RecordsTwiceIffDoubleLink(reg: Registry, aggregates: seq<(TypeId, TypeId)>, root: TypeId)
    requires RegistryOk(reg, aggregates) && NamesOk(reg) && root < |reg.types|
    ensures Repeats(Recorded(GraphOf(reg, aggregates), root)) <==> ReachesDoubleLink(reg, aggregates, root)
  {
    var g := GraphOf(reg, aggregates);
    GraphIsClean(reg, aggregates);
    RepeatsIffTwoEdges(g, root);
    if ReachesTwoEdges(g, root) {
      var w: Walk, u: TypeId :|
        SimpleWalk(g, root, w) && TwoEdges(g, End(g, root, w), u) && u < |g.edges| && u !in Visited(g, root, w);
      TwoEdgesDoubleLink(reg, aggregates, End(g, root, w), u);
    }
    if ReachesDoubleLink(reg, aggregates, root) {
      var w: Walk, u: TypeId :|
        SimpleWalk(g, root, w) && DoublyLinked(reg, aggregates, End(g, root, w), u) && u !in Visited(g, root, w);
      InGraph(g, root, w, |w|);
      DoubleLinkTwoEdges(reg, aggregates, End(g, root, w), u);
    }
  }

  /** Some root reaches a double link. */
  ghost predicate SomeReachesDoubleLink(reg: Registry, aggregates: seq<(TypeId, TypeId)>, roots: seq<TypeId>) {
    exists i :: 0 <= i < |roots| && ReachesDoubleLink(reg, aggregates, roots[i])
  }

  lemma TwoEdgesIffDoubleLink(reg: Registry, aggregates: seq<(TypeId, TypeId)>, root: TypeId)
    requires RegistryOk(reg, aggregates) && NamesOk(reg) && root < |reg.types|
    ensures ReachesTwoEdges(GraphOf(reg, aggregates), root) <==> ReachesDoubleLink(reg, aggregates, root)
  {
    GraphIsClean(reg, aggregates);
    RepeatsIffTwoEdges(GraphOf(reg, aggregates), root);
    RecordsTwiceIffDoubleLink(reg, aggregates, root);
  }

  /**
   With proper names the searches from all roots leave an entry twice exactly when one of them reaches a double
   link, or two of them have simple walks that spell the same way to the same type.
   */
  lemma RootsRecordTwiceIff(reg: Registry, aggregates: seq<(TypeId, TypeId)>, roots: seq<TypeId>)
    requires RegistryOk(reg, aggregates) && NamesOk(reg) && forall i :: 0 <= i < |roots| ==> roots[i] < |reg.types|
    ensures Repeats(RecordedFrom(GraphOf(reg, aggregates), roots))
       <==> SomeReachesDoubleLink(reg, aggregates, roots) || SomeShareWalk(GraphOf(reg, aggregates), roots)
  {
    var g := GraphOf(reg, aggregates);
    GraphIsClean(reg, aggregates);
    RootsRepeatIff(g, roots);
    forall i | 0 <= i < |roots| ensures ReachesTwoEdges(g, roots[i]) <==> ReachesDoubleLink(reg, aggregates, roots[i]) {
      TwoEdgesIffDoubleLink(reg, aggregates, roots[i]);
    }
  }

  // ----- the registered aggregations

  /** LookupByNameFailSafe among the first n types: the TypeId of the name, or -1. */
  function Lookup(reg: Registry, name: string, n: nat): (t: int)
    requires n <= |reg.types|
    ensures -1 <= t < n && (t >= 0 ==> reg.types[t].name == name)
    ensures t == -1 ==> forall s :: 0 <= s < n ==> reg.types[s].name != name
  {
    if n == 0 then -1 else if reg.types[n - 1].name == name then n - 1 else Lookup(reg, name, n - 1)
  }

  /** What RecordAggregationInfo keeps of the first n pairs of names: those with two registered names. */
  function Resolved(reg: Registry, names: seq<(string, string)>, n: nat): seq<(TypeId, TypeId)>
    requires n <= |names|
  {
    if n == 0 then []
    else
      var t, u := Lookup(reg, names[n - 1].0, |reg.types|), Lookup(reg, names[n - 1].1, |reg.types|);
      Resolved(reg, names, n - 1) + (if t >= 0 && u >= 0 then [(t, u)] else [])
  }

  /** Pair k of types is registered under the k-th of the chosen pairs of names. */
  ghost predicate PairsNamed(reg: Registry, pairs: seq<(TypeId, TypeId)>, names: seq<(string, string)>, idx: seq<nat>) {
    && |pairs| == |idx|
    && forall k :: 0 <= k < |pairs| ==>
      && idx[k] < |names| && pairs[k].0 < |reg.types| && pairs[k].1 < |reg.types|
      && (reg.types[pairs[k].0].name, reg.types[pairs[k].1].name) == names[idx[k]]
  }

  /** Both names are those of registered types. */
  ghost predicate BothRegistered(reg: Registry, pair: (string, string)) {
    && (exists t :: 0 <= t < |reg.types| && reg.types[t].name == pair.0)
    && (exists t :: 0 <= t < |reg.types| && reg.types[t].name == pair.1)
  }

  lemma OneResolved(reg: Registry, names: seq<(string, string)>, n: nat) returns (last: seq<(TypeId, TypeId)>)
    requires n < |names|
    ensures Resolved(reg, names, n + 1) == Resolved(reg, names, n) + last
    ensures last == [] <==> !BothRegistered(reg, names[n])
    ensures last != [] ==> PairsNamed(reg, last, names, [n])
  {
    var t, u := Lookup(reg, names[n].0, |reg.types|), Lookup(reg, names[n].1, |reg.types|);
    last := if t >= 0 && u >= 0 then [(t, u)] else [];
  }

  lemma NamedConcat(reg: Registry, a: seq<(TypeId, TypeId)>, b: seq<(TypeId, TypeId)>, names: seq<(string, string)>,
                    i: seq<nat>, j: seq<nat>)
    requires PairsNamed(reg, a, names, i) && PairsNamed(reg, b, names, j)
    ensures PairsNamed(reg, a + b, names, i + j)
  {}

  lemma NextNamed(reg: Registry, names: seq<(string, string)>, n: nat, idx: seq<nat>)
    requires 0 < n <= |names| && PairsNamed(reg, Resolved(reg, names, n - 1), names, idx)
    ensures !BothRegistered(reg, names[n - 1]) ==> PairsNamed(reg, Resolved(reg, names, n), names, idx)
    ensures BothRegistered(reg, names[n - 1]) ==> PairsNamed(reg, Resolved(reg, names, n), names, idx + [n - 1])
  {
    var before := Resolved(reg, names, n - 1);
    var last := OneResolved(reg, names, n - 1);
    if last == [] {
      assert before + last == before;
    } else {
      NamedConcat(reg, before, last, names, idx, [n - 1]);
    }
  }

  /** Recorded are, in order, the pairs of which both names are registered. */
  lemma {:induction false} ResolvedExactly(reg: Registry, names: seq<(string, string)>, n: nat,
                                           keep: ((string, string)) -> bool) returns (idx: seq<nat>)
    requires n <= |names| && forall pair :: keep(pair) <==> BothRegistered(reg, pair)
    ensures Selects(idx, names[..n], keep) && PairsNamed(reg, Resolved(reg, names, n), names, idx)
  {
    if n == 0 {
      idx := [];
    } else {
      var before := ResolvedExactly(reg, names, n - 1, keep);
      NextNamed(reg, names, n, before);
      idx := SelectsLonger(before, names, keep, n);
    }
  }

  lemma LinksAppend(pairs: seq<(TypeId, TypeId)>, pair: (TypeId, TypeId), t: TypeId, u: TypeId)
    ensures Links(pairs + [pair], t, u) == Links(pairs, t, u) + (if Connects(pair, t, u) then 1 else 0)
  {
    assert (pairs + [pair])[..|pairs|] == pairs;
  }

  /** A pair of names that is registered counts as often as it is recorded. */
  lemma {:induction false} RecordedTwiceLinksTwice(reg: Registry, names: seq<(string, string)>, n: nat, i: nat, j: nat)
    requires i <= j < n <= |names| && names[i] == names[j]
    requires Lookup(reg, names[j].0, |reg.types|) >= 0 && Lookup(reg, names[j].1, |reg.types|) >= 0
    ensures Links(Resolved(reg, names, n), Lookup(reg, names[j].0, |reg.types|), Lookup(reg, names[j].1, |reg.types|))
         >= if i < j then 2 else 1
  {
    var t, u := Lookup(reg, names[j].0, |reg.types|), Lookup(reg, names[j].1, |reg.types|);
    var a, b := Lookup(reg, names[n - 1].0, |reg.types|), Lookup(reg, names[n - 1].1, |reg.types|);
    var before := Resolved(reg, names, n - 1);
    assert Resolved(reg, names, n) == before + (if a >= 0 && b >= 0 then [(a, b)] else []);
    if a >= 0 && b >= 0 {
      LinksAppend(before, (a, b), t, u);
    } else {
      assert before + [] == before;
    }
    if j < n - 1 {
      RecordedTwiceLinksTwice(reg, names, n - 1, i, j);
    } else if i < j {
      RecordedTwiceLinksTwice(reg, names, n - 1, i, i);
    }
  }

  lemma {:induction false} ResolvedInRegistry(reg: Registry, names: seq<(string, string)>, n: nat)
    requires RegistryOk(reg, []) && n <= |names|
    ensures RegistryOk(reg, Resolved(reg, names, n))
  {
    if n == 0 {
    } else {
      ResolvedInRegistry(reg, names, n - 1);
      var a, b := Lookup(reg, names[n - 1].0, |reg.types|), Lookup(reg, names[n - 1].1, |reg.types|);
      assert Resolved(reg, names, n) == Resolved(reg, names, n - 1) + (if a >= 0 && b >= 0 then [(a, b)] else []);
    }
  }

  /** A walk that ends at one of two doubly linked types and has not visited the other repeats entries. */
  lemma DoubleLinkRepeats(reg: Registry, aggregates: seq<(TypeId, TypeId)>, root: TypeId, w: Walk, u: TypeId)
    requires root < |reg.types|
    requires SimpleWalk(GraphOf(reg, aggregates), root, w) && u !in Visited(GraphOf(reg, aggregates), root, w)
    requires DoublyLinked(reg, aggregates, End(GraphOf(reg, aggregates), root, w), u)
    ensures Repeats(Recorded(GraphOf(reg, aggregates), root))
  {
    var g := GraphOf(reg, aggregates);
    InGraph(g, root, w, |w|);
    DoubleLinkTwoEdges(reg, aggregates, End(g, root, w), u);
    TwoEdgesRepeat(g, root);
  }

  /** What GetTypicalAggregations aggregates to "ns3::Node", in its order. */
  const TYPICAL: seq<string> := [
    "ns3::TcpSocketFactory", "ns3::UdpSocketFactory", "ns3::PacketSocketFactory", "ns3::MobilityModel",
    "ns3::Ipv4L3Protocol", "ns3::Ipv4NixVectorRouting", "ns3::Icmpv4L4Protocol", "ns3::ArpL3Protocol",
    "ns3::Icmpv4L4Protocol", "ns3::UdpL4Protocol", "ns3::Ipv6L3Protocol", "ns3::Icmpv6L4Protocol",
    "ns3::TcpL4Protocol", "ns3::RipNg", "ns3::GlobalRouter", "ns3::aodv::RoutingProtocol",
    "ns3::dsdv::RoutingProtocol", "ns3::dsr::DsrRouting", "ns3::olsr::RoutingProtocol",
    "ns3::EnergyHarvesterContainer", "ns3::EnergySourceContainer"]

  function TypicalPairs(): (names: seq<(string, string)>) {
    seq(|TYPICAL|, i requires 0 <= i < |TYPICAL| => ("ns3::Node", TYPICAL[i]))
  }

  /** The graph of a registry with the aggregations that the program itself records. */
  ghost function TypicalGraph(reg: Registry): Graph {
    GraphOf(reg, Resolved(reg, TypicalPairs(), |TYPICAL|))
  }

  /** The program's own list names the ICMP protocol twice, which links its type doubly to the node type. */
  lemma TypicalDoubleLink(reg: Registry, node: TypeId, icmp: TypeId)
    requires node == Lookup(reg, "ns3::Node", |reg.types|) && icmp == Lookup(reg, "ns3::Icmpv4L4Protocol", |reg.types|)
    ensures node != icmp && DoublyLinked(reg, Resolved(reg, TypicalPairs(), |TYPICAL|), node, icmp)
  {
    assert TYPICAL[6] == TYPICAL[8] == "ns3::Icmpv4L4Protocol";
    assert |"ns3::Node"| != |"ns3::Icmpv4L4Protocol"|;
    RecordedTwiceLinksTwice(reg, TypicalPairs(), |TYPICAL|, 6, 8);
  }

  /** So entries repeat as soon as a simple walk from some root ends at the node type without the ICMP type. */
  lemma TypicalAggregationsRepeat(reg: Registry, roots: seq<TypeId>, i: nat, w: Walk, node: TypeId, icmp: TypeId)
    requires node == Lookup(reg, "ns3::Node", |reg.types|) && icmp == Lookup(reg, "ns3::Icmpv4L4Protocol", |reg.types|)
    requires i < |roots| && roots[i] < |reg.types|
    requires SimpleWalk(TypicalGraph(reg), roots[i], w) && End(TypicalGraph(reg), roots[i], w) == node
    requires icmp !in Visited(TypicalGraph(reg), roots[i], w)
    ensures Repeats(RecordedFrom(TypicalGraph(reg), roots))
  {
    TypicalDoubleLink(reg, node, icmp);
    DoubleLinkRepeats(reg, Resolved(reg, TypicalPairs(), |TYPICAL|), roots[i], w, icmp);
    OneRootRepeats(TypicalGraph(reg), roots, i);
  }

  /** They do repeat when a root, as the list of nodes, is another type with a container of nodes. */
  lemma NodeContainerRepeats(reg: Registry, roots: seq<TypeId>, i: nat, name: string, node: TypeId, icmp: TypeId)
    requires node == Lookup(reg, "ns3::Node", |reg.types|) && icmp == Lookup(reg, "ns3::Icmpv4L4Protocol", |reg.types|)
    requires i < |roots| && roots[i] < |reg.types| && roots[i] != node && roots[i] != icmp
    requires Container(name, node) in reg.types[roots[i]].attributes
    ensures Repeats(RecordedFrom(TypicalGraph(reg), roots))
  {
    var g, root, e := TypicalGraph(reg), roots[i], Edge(name + "/[i]", node);
    EdgesExactly(reg, Resolved(reg, TypicalPairs(), |TYPICAL|), root, e);
    assert g.edges[root] == EdgesOf(reg, Resolved(reg, TypicalPairs(), |TYPICAL|), root);
    var k :| 0 <= k < |g.edges[root]| && g.edges[root][k] == e;
    TypicalDoubleLink(reg, node, icmp);
    Extend(g, root, [], k);
    assert [] + [k] == [k] && Visited(g, root, [k]) == [root, node];
    TypicalAggregationsRepeat(reg, roots, i, [k], node, icmp);
  }
}
