/**
 What StaticInformation of utils/print-introspected-doxygen.cc records and in which order, said without the
 functions that specify its methods.
 */
module IntrospectionExact {
  import opened Sequences
  import opened Introspection

  // ----- the edges, in the order of the three loops

  /** The steps of DoGather's loops at one TypeId: its attributes, all types, all aggregations. */
  ghost function LoopSteps(reg: Registry, aggregates: seq<(TypeId, TypeId)>, tid: TypeId): nat
    requires tid < |reg.types|
  {
    |reg.types[tid].attributes| + |reg.types| + |aggregates|
  }

  /** Step p of the loops follows edge e. */
  ghost predicate Follows(reg: Registry, aggregates: seq<(TypeId, TypeId)>, tid: TypeId, p: nat, e: Edge)
    requires tid < |reg.types|
  {
    var attrs := reg.types[tid].attributes;
    var j, k := p - |attrs|, p - |attrs| - |reg.types|;
    if p < |attrs| then
      || (attrs[p] == Pointer(e.step, e.target) && e.target != reg.objectId)
      || (attrs[p].Container? && attrs[p].item == e.target && e.step == attrs[p].name + "/[i]")
    else if j < |reg.types| then
      e.target == j && (j, tid) in reg.childOf && e.step == "$" + reg.types[j].name
    else if k < |aggregates| then
      && e.target < |reg.types| && e.step == "$" + reg.types[e.target].name
      && (aggregates[k] == (tid, e.target) || aggregates[k] == (e.target, tid))
    else false
  }

  /** The first n steps of the loops follow these edges, at the steps idx, and none elsewhere. */
  ghost predicate FollowedIn(reg: Registry, aggregates: seq<(TypeId, TypeId)>, tid: TypeId, n: nat,
                             es: seq<Edge>, idx: seq<nat>)
    requires tid < |reg.types|
  {
    && Increasing(idx) && |idx| == |es|
    && (forall k :: 0 <= k < |es| ==> idx[k] < n && Follows(reg, aggregates, tid, idx[k], es[k]))
    && (forall p, e :: 0 <= p < n && Follows(reg, aggregates, tid, p, e) ==> p in idx)
  }

  /** One more step of the loops, which follows the edges `last`, none or one. */
  lemma FollowedNext(reg: Registry, aggregates: seq<(TypeId, TypeId)>, tid: TypeId, n: nat,
                     es: seq<Edge>, idx: seq<nat>, last: seq<Edge>) returns (next: seq<nat>)
    requires tid < |reg.types| && FollowedIn(reg, aggregates, tid, n, es, idx) && |last| <= 1
    requires forall e :: Follows(reg, aggregates, tid, n, e) <==> last == [e]
    ensures FollowedIn(reg, aggregates, tid, n + 1, es + last, next)
  {
    if last == [] {
      next := idx;
      assert es + last == es;
    } else {
      next := idx + [n];
      assert last == [last[0]];
      assert (es + last)[|es|] == last[0];
    }
  }

  lemma FollowedBehind(reg: Registry, aggregates: seq<(TypeId, TypeId)>, tid: TypeId, n: nat, front: seq<Edge>,
                       before: seq<Edge>, last: seq<Edge>, idx: seq<nat>) returns (next: seq<nat>)
    requires tid < |reg.types| && FollowedIn(reg, aggregates, tid, n, front + before, idx) && |last| <= 1
    requires forall e :: Follows(reg, aggregates, tid, n, e) <==> last == [e]
    ensures FollowedIn(reg, aggregates, tid, n + 1, front + (before + last), next)
  {
    next := FollowedNext(reg, aggregates, tid, n, front + before, idx, last);
    assert (front + before) + last == front + (before + last);
  }

  lemma {:induction false} AttributesFollowed(reg: Registry, aggregates: seq<(TypeId, TypeId)>, tid: TypeId, n: nat)
    returns (idx: seq<nat>)
    requires tid < |reg.types| && n <= |reg.types[tid].attributes|
    ensures FollowedIn(reg, aggregates, tid, n, AttributeEdges(reg, reg.types[tid].attributes, n), idx)
  {
    if n == 0 {
      idx := [];
    } else {
      var attrs := reg.types[tid].attributes;
      idx := AttributesFollowed(reg, aggregates, tid, n - 1);
      AttributeFollowed(reg, aggregates, tid, n - 1);
      idx := FollowedNext(reg, aggregates, tid, n - 1, AttributeEdges(reg, attrs, n - 1), idx, AttributeEdge(reg, attrs[n - 1]));
    }
  }

  lemma AttributeFollowed(reg: Registry, aggregates: seq<(TypeId, TypeId)>, tid: TypeId, p: nat)
    requires tid < |reg.types| && p < |reg.types[tid].attributes|
    ensures var last := AttributeEdge(reg, reg.types[tid].attributes[p]);
      |last| <= 1 && forall e :: Follows(reg, aggregates, tid, p, e) <==> last == [e]
  {}

  lemma NextChild(reg: Registry, aggregates: seq<(TypeId, TypeId)>, tid: TypeId, j: nat,
                  front: seq<Edge>, idx: seq<nat>) returns (next: seq<nat>)
    requires tid < |reg.types| && j < |reg.types|
    requires FollowedIn(reg, aggregates, tid, |reg.types[tid].attributes| + j, front + ChildEdges(reg, tid, j), idx)
    ensures FollowedIn(reg, aggregates, tid, |reg.types[tid].attributes| + j + 1, front + ChildEdges(reg, tid, j + 1), next)
  {
    var before, last := ChildFollowed(reg, aggregates, tid, j);
    next := FollowedBehind(reg, aggregates, tid, |reg.types[tid].attributes| + j, front, before, last, idx);
  }

  lemma NextAggregate(reg: Registry, aggregates: seq<(TypeId, TypeId)>, tid: TypeId, k: nat,
                      front: seq<Edge>, idx: seq<nat>) returns (next: seq<nat>)
    requires RegistryOk(reg, aggregates) && tid < |reg.types| && k < |aggregates|
    requires FollowedIn(reg, aggregates, tid, |reg.types[tid].attributes| + |reg.types| + k,
      front + AggregateEdges(reg, tid, aggregates, k), idx)
    ensures FollowedIn(reg, aggregates, tid, |reg.types[tid].attributes| + |reg.types| + k + 1,
      front + AggregateEdges(reg, tid, aggregates, k + 1), next)
  {
    var before, last := AggregateFollowed(reg, aggregates, tid, k);
    next := FollowedBehind(reg, aggregates, tid, |reg.types[tid].attributes| + |reg.types| + k, front, before, last, idx);
  }

  /** Behind the edges that come before them, those to the first n children. */
  lemma {:induction false} ChildrenFollowed(reg: Registry, aggregates: seq<(TypeId, TypeId)>, tid: TypeId, n: nat,
                                            front: seq<Edge>, start: seq<nat>) returns (idx: seq<nat>)
    requires tid < |reg.types| && n <= |reg.types|
    requires FollowedIn(reg, aggregates, tid, |reg.types[tid].attributes|, front, start)
    ensures FollowedIn(reg, aggregates, tid, |reg.types[tid].attributes| + n, front + ChildEdges(reg, tid, n), idx)
  {
    if n == 0 {
      idx := start;
      assert front + ChildEdges(reg, tid, 0) == front;
    } else {
      idx := ChildrenFollowed(reg, aggregates, tid, n - 1, front, start);
      idx := NextChild(reg, aggregates, tid, n - 1, front, idx);
    }
  }

  lemma ChildFollowed(reg: Registry, aggregates: seq<(TypeId, TypeId)>, tid: TypeId, j: nat)
    returns (before: seq<Edge>, last: seq<Edge>)
    requires tid < |reg.types| && j < |reg.types|
    ensures before == ChildEdges(reg, tid, j) && before + last == ChildEdges(reg, tid, j + 1)
    ensures |last| <= 1
    ensures forall e :: Follows(reg, aggregates, tid, |reg.types[tid].attributes| + j, e) <==> last == [e]
  {
    before, last := ChildEdges(reg, tid, j), ChildEdge(reg, tid, j);
  }

  lemma {:induction false} AggregatesFollowed(reg: Registry, aggregates: seq<(TypeId, TypeId)>, tid: TypeId, n: nat,
                                              front: seq<Edge>, start: seq<nat>) returns (idx: seq<nat>)
    requires RegistryOk(reg, aggregates) && tid < |reg.types| && n <= |aggregates|
    requires FollowedIn(reg, aggregates, tid, |reg.types[tid].attributes| + |reg.types|, front, start)
    ensures FollowedIn(reg, aggregates, tid, |reg.types[tid].attributes| + |reg.types| + n,
      front + AggregateEdges(reg, tid, aggregates, n), idx)
  {
    if n == 0 {
      idx := start;
      assert front + AggregateEdges(reg, tid, aggregates, 0) == front;
    } else {
      idx := AggregatesFollowed(reg, aggregates, tid, n - 1, front, start);
      idx := NextAggregate(reg, aggregates, tid, n - 1, front, idx);
    }
  }

  lemma AggregateFollowed(reg: Registry, aggregates: seq<(TypeId, TypeId)>, tid: TypeId, k: nat)
    returns (before: seq<Edge>, last: seq<Edge>)
    requires RegistryOk(reg, aggregates) && tid < |reg.types| && k < |aggregates|
    ensures before == AggregateEdges(reg, tid, aggregates, k)
    ensures before + last == AggregateEdges(reg, tid, aggregates, k + 1)
    ensures |last| <= 1
    ensures forall e :: Follows(reg, aggregates, tid, |reg.types[tid].attributes| + |reg.types| + k, e) <==> last == [e]
  {
    before, last := AggregateEdges(reg, tid, aggregates, k), AggregateEdge(reg, tid, aggregates[k]);
  }

  /** The edges of a TypeId are what the loops follow, each step once and in its turn. */
  lemma EdgesInOrder(reg: Registry, aggregates: seq<(TypeId, TypeId)>, tid: TypeId) returns (idx: seq<nat>)
    requires RegistryOk(reg, aggregates) && tid < |reg.types|
    ensures FollowedIn(reg, aggregates, tid, LoopSteps(reg, aggregates, tid), EdgesOf(reg, aggregates, tid), idx)
  {
    var front := AttributePart(reg, tid);
    idx := AttributesFollowed(reg, aggregates, tid, |reg.types[tid].attributes|);
    idx := ChildrenFollowed(reg, aggregates, tid, |reg.types|, front, idx);
    idx := AggregatesFollowed(reg, aggregates, tid, |aggregates|, front + ChildEdges(reg, tid, |reg.types|), idx);
  }

  // ----- the entries

  /** The entry of a walk: its end, and the path that it spells. */
  ghost predicate IsEntryOf(g: Graph, root: TypeId, w: Walk, e: Entry)
    requires IsWalk(g, root, w)
  {
    e.0 == End(g, root, w) && e.1 == Joined(Spelled(g, root, w))
  }

  /** A search records one entry for each simple walk, in depth-first order, and no other. */
  lemma RecordedExactly(g: Graph, root: TypeId) returns (ws: seq<Walk>)
    requires root < |g.edges|
    ensures Distinct(ws) && Ordered(ws) && forall w :: w in ws <==> SimpleWalk(g, root, w)
    ensures |Recorded(g, root)| == |ws|
    ensures forall i :: 0 <= i < |ws| ==> IsWalk(g, root, ws[i]) && IsEntryOf(g, root, ws[i], Recorded(g, root)[i])
  {
    ws := Walks(g, [], root);
    GathersSimpleWalks(g, root);
    WalksOrdered(g, [], root);
    forall i | 0 <= i < |ws| ensures IsEntryOf(g, root, ws[i], Recorded(g, root)[i]) {
      assert [] + Spelled(g, root, ws[i]) == Spelled(g, root, ws[i]);
    }
  }

  /** The walk goes through these edges: it spells their steps and visits their targets. */
  lemma {:induction false} WalkEdges(g: Graph, t: TypeId, w: Walk, i: nat)
    requires IsWalk(g, t, w) && i < |w|
    ensures var vs := Visited(g, t, w);
      && |Spelled(g, t, w)| == |w| && vs[0] == t && vs[i] < |g.edges| && w[i] < |g.edges[vs[i]]|
      && Spelled(g, t, w)[i] == g.edges[vs[i]][w[i]].step && vs[i + 1] == g.edges[vs[i]][w[i]].target
    decreases |w|
  {
    var u := g.edges[t][w[0]].target;
    if i > 0 {
      WalkEdges(g, u, w[1..], i - 1);
    } else if |w| > 1 {
      WalkEdges(g, u, w[1..], 0);
    }
  }

  // ----- what Get returns

  ghost predicate PathsAt(paths: seq<string>, output: seq<Entry>, idx: seq<nat>) {
    |paths| == |idx| && forall k :: 0 <= k < |paths| ==> idx[k] < |output| && paths[k] == output[idx[k]].1
  }

  lemma PathsNext(paths: seq<string>, output: seq<Entry>, idx: seq<nat>)
    requires output != [] && PathsAt(paths, output[..|output| - 1], idx)
    ensures PathsAt(paths, output, idx)
    ensures var m := |output| - 1; PathsAt(paths + [output[m].1], output, idx + [m])
  {
    forall k | 0 <= k < |paths| ensures idx[k] < |output| && paths[k] == output[idx[k]].1 {
      assert output[..|output| - 1][idx[k]] == output[idx[k]];
    }
  }

  lemma LastPath(output: seq<Entry>, tid: TypeId)
    requires output != []
    ensures var m := |output| - 1;
      PathsTo(output, tid) == if output[m].0 == tid then PathsTo(output[..m], tid) + [output[m].1] else PathsTo(output[..m], tid)
  {
    assert PathsTo(output[..|output| - 1], tid) + [] == PathsTo(output[..|output| - 1], tid);
  }

  lemma IndexOfLast(output: seq<Entry>, isFor: Entry -> bool, idx: seq<nat>)
    requires output != [] && Selects(idx, output[..|output| - 1], isFor)
    ensures var m := |output| - 1; Selects(if isFor(output[m]) then idx + [m] else idx, output, isFor)
  {
    SelectsNext(idx, output[..|output| - 1], isFor, output[|output| - 1]);
    assert output == output[..|output| - 1] + [output[|output| - 1]];
  }

  ghost predicate IsFor(tid: TypeId, isFor: Entry -> bool) {
    forall e :: isFor(e) <==> e.0 == tid
  }

  /** Get returns the paths of the entries for the TypeId, each as often and in the order as it was recorded. */
  lemma {:induction false} GetInOrder(output: seq<Entry>, tid: TypeId, isFor: Entry -> bool) returns (idx: seq<nat>)
    requires IsFor(tid, isFor)
    ensures Selects(idx, output, isFor) && PathsAt(PathsTo(output, tid), output, idx)
  {
    if output == [] {
      idx := [];
    } else {
      var m := |output| - 1;
      var before := GetInOrder(output[..m], tid, isFor);
      IndexOfLast(output, isFor, before);
      LastPath(output, tid);
      PathsNext(PathsTo(output[..m], tid), output, before);
      idx := if isFor(output[m]) then before + [m] else before;
    }
  }
}
