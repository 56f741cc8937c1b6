/**
 When the path search of utils/print-introspected-doxygen.cc records an entry twice: the exact condition
 on the graph of TypeIds.
 */
module IntrospectionRepeats {
  import opened Sequences
  import opened Introspection

  ghost predicate Repeats(es: seq<Entry>) {
    exists a, b :: 0 <= a < b < |es| && es[a] == es[b]
  }

  /** Two edges lead from t to u under the same step. */
  ghost predicate TwoEdges(g: Graph, t: TypeId, u: TypeId) {
    && t < |g.edges|
    && exists j, k :: 0 <= j < k < |g.edges[t]| && g.edges[t][j] == g.edges[t][k] && g.edges[t][k].target == u
  }

  /** A simple walk ends at a TypeId with two equal edges to one that it has not visited. */
  ghost predicate ReachesTwoEdges(g: Graph, root: TypeId) {
    exists w: Walk, u: TypeId ::
      SimpleWalk(g, root, w) && TwoEdges(g, End(g, root, w), u) && u < |g.edges| && u !in Visited(g, root, w)
  }

  // ----- walks and their parts

  /** A walk may be extended by any edge of its end. */
  lemma {:induction false} Extend(g: Graph, t: TypeId, p: Walk, k: nat)
    requires IsWalk(g, t, p) && End(g, t, p) < |g.edges| && k < |g.edges[End(g, t, p)]|
    requires g.edges[End(g, t, p)][k].target < |g.edges|
    ensures var e := g.edges[End(g, t, p)][k];
      && IsWalk(g, t, p + [k])
      && Visited(g, t, p + [k]) == Visited(g, t, p) + [e.target]
      && Spelled(g, t, p + [k]) == Spelled(g, t, p) + [e.step]
    decreases |p|
  {
    if p == [] {
      assert p + [k] == [k] && [k][1..] == [];
    } else {
      Extend(g, g.edges[t][p[0]].target, p[1..], k);
      assert (p + [k])[1..] == p[1..] + [k];
    }
  }

  /** Up to edge i of a walk, and that edge. */
  lemma {:induction false} UpTo(g: Graph, t: TypeId, v: Walk, i: nat)
    requires IsWalk(g, t, v) && i < |v|
    ensures IsWalk(g, t, v[..i]) && End(g, t, v[..i]) < |g.edges|
    ensures Visited(g, t, v[..i]) == Visited(g, t, v)[..i + 1]
    ensures |Spelled(g, t, v)| == |v|
    ensures var es := g.edges[End(g, t, v[..i])];
      v[i] < |es| && es[v[i]].target == Visited(g, t, v)[i + 1] && es[v[i]].step == Spelled(g, t, v)[i]
    decreases |v|
  {
    var u := g.edges[t][v[0]].target;
    if i == 0 {
      SpelledSize(g, u, v[1..]);
    } else {
      UpTo(g, u, v[1..], i - 1);
      assert v[..i][1..] == v[1..][..i - 1];
    }
  }

  lemma {:induction false} SpelledSize(g: Graph, t: TypeId, v: Walk)
    requires IsWalk(g, t, v)
    ensures |Spelled(g, t, v)| == |v|
    decreases |v|
  {
    if v == [] {
    } else {
      SpelledSize(g, g.edges[t][v[0]].target, v[1..]);
    }
  }

  lemma {:induction false} FirstDifference(v: Walk, w: Walk) returns (i: nat)
    requires |v| == |w| && v != w
    ensures i < |v| && v[..i] == w[..i] && v[i] != w[i]
  {
    if v[0] != w[0] {
      i := 0;
    } else {
      i := FirstDifference(v[1..], w[1..]);
      i := i + 1;
      assert v[..i] == [v[0]] + v[1..][..i - 1] && w[..i] == [w[0]] + w[1..][..i - 1];
    }
  }

  // ----- two equal edges repeat an entry

  lemma EntryTwice(g: Graph, root: TypeId, ws: seq<Walk>, v: Walk, w: Walk)
    requires forall i :: 0 <= i < |ws| ==> IsWalk(g, root, ws[i])
    requires v in ws && w in ws && v != w && EntryOf(g, [], root, v) == EntryOf(g, [], root, w)
    ensures Repeats(Entries(g, [], root, ws))
  {
    var a :| 0 <= a < |ws| && ws[a] == v;
    var b :| 0 <= b < |ws| && ws[b] == w;
    var rs := Entries(g, [], root, ws);
    assert rs[a] == rs[b];
    var lo, hi := if a < b then a else b, if a < b then b else a;
    assert lo < hi && rs[lo] == rs[hi];
  }

  /** The entry of a simple walk that goes on to a TypeId it has not visited. */
  lemma ExtendSimple(g: Graph, root: TypeId, w: Walk, k: nat)
    requires SimpleWalk(g, root, w) && End(g, root, w) < |g.edges| && k < |g.edges[End(g, root, w)]|
    requires var u := g.edges[End(g, root, w)][k].target; u < |g.edges| && u !in Visited(g, root, w)
    ensures SimpleWalk(g, root, w + [k])
    ensures var e := g.edges[End(g, root, w)][k];
      EntryOf(g, [], root, w + [k]) == (e.target, Joined(Spelled(g, root, w) + [e.step]))
  {
    Extend(g, root, w, k);
    assert [] + Spelled(g, root, w + [k]) == Spelled(g, root, w + [k]);
  }

  /** Two walks that differ in equal last edges leave the same entry, whatever the names are. */
  lemma TwoEdgesRepeat(g: Graph, root: TypeId)
    requires root < |g.edges| && ReachesTwoEdges(g, root)
    ensures Repeats(Recorded(g, root))
  {
    var w: Walk, u: TypeId :|
      SimpleWalk(g, root, w) && TwoEdges(g, End(g, root, w), u) && u < |g.edges| && u !in Visited(g, root, w);
    var es := g.edges[End(g, root, w)];
    var j, k :| 0 <= j < k < |es| && es[j] == es[k] && es[k].target == u;
    ExtendSimple(g, root, w, j);
    ExtendSimple(g, root, w, k);
    assert (w + [j])[|w|] != (w + [k])[|w|];
    GathersSimpleWalks(g, root);
    EntryTwice(g, root, Walks(g, [], root), w + [j], w + [k]);
  }

  // ----- a repeated entry comes from two equal edges

  /** At each TypeId the step says where an edge leads. */
  ghost predicate StepsDetermine(g: Graph) {
    forall t :: 0 <= t < |g.edges| ==> StepsDetermineAt(g.edges[t])
  }

  ghost predicate StepsDetermineAt(es: seq<Edge>) {
    forall j, k :: 0 <= j < |es| && 0 <= k < |es| && es[j].step == es[k].step ==> es[j].target == es[k].target
  }

  /** A name without a slash that is not taken for the index of a container. */
  predicate CleanName(name: string) {
    '/' !in name && name != "[i]"
  }

  /** A clean name, or the step through a container with a clean name. */
  ghost predicate CleanStep(step: string) {
    CleanName(step) || exists name :: CleanName(name) && step == name + "/[i]"
  }

  ghost predicate CleanPath(path: seq<string>) {
    forall i :: 0 <= i < |path| ==> CleanStep(path[i])
  }

  ghost predicate CleanGraph(g: Graph) {
    forall t, k :: 0 <= t < |g.edges| && 0 <= k < |g.edges[t]| ==> CleanStep(g.edges[t][k].step)
  }

  lemma SlashBehind(x: string, a: string, y: string, b: string)
    requires x + ("/" + a) == y + ("/" + b) && |x| > |y|
    ensures '/' in b
  {
    assert (x + ("/" + a))[|x|] == (y + ("/" + b))[|x|] == b[|x| - |y| - 1];
  }

  /** A string splits at its last slash in one way. */
  lemma LastSlash(x: string, a: string, y: string, b: string)
    requires '/' !in a && '/' !in b && x + ("/" + a) == y + ("/" + b)
    ensures x == y && a == b
  {
    var s := x + ("/" + a);
    if |x| > |y| {
      SlashBehind(x, a, y, b);
      assert false;
    } else if |x| < |y| {
      SlashBehind(y, b, x, a);
      assert false;
    }
    assert x == s[..|x|] && y == s[..|y|] && a == s[|x| + 1..] && b == s[|y| + 1..];
  }

  lemma LastStep(x: string, a: string, y: string, b: string)
    requires CleanStep(a) && CleanStep(b) && x + ("/" + a) == y + ("/" + b)
    ensures x == y && a == b
  {
    if CleanName(a) && CleanName(b) {
      LastSlash(x, a, y, b);
    } else if CleanName(a) {
      var n :| CleanName(n) && b == n + "/[i]";
      assert y + ("/" + b) == (y + ("/" + n)) + ("/" + "[i]");
      LastSlash(x, a, y + ("/" + n), "[i]");
    } else if CleanName(b) {
      var m :| CleanName(m) && a == m + "/[i]";
      assert x + ("/" + a) == (x + ("/" + m)) + ("/" + "[i]");
      LastSlash(x + ("/" + m), "[i]", y, b);
    } else {
      var m :| CleanName(m) && a == m + "/[i]";
      var n :| CleanName(n) && b == n + "/[i]";
      assert x + ("/" + a) == (x + ("/" + m)) + ("/" + "[i]");
      assert y + ("/" + b) == (y + ("/" + n)) + ("/" + "[i]");
      LastSlash(x + ("/" + m), "[i]", y + ("/" + n), "[i]");
      LastSlash(x, m, y, n);
    }
  }

  /** A path string spells one list of clean steps only. */
  lemma {:induction false} JoinedInjective(p: seq<string>, q: seq<string>)
    requires CleanPath(p) && CleanPath(q) && Joined(p) == Joined(q)
    ensures p == q
    decreases |p|
  {
    if p != [] && q != [] {
      var m, n := |p| - 1, |q| - 1;
      LastStep(Joined(p[..m]), p[m], Joined(q[..n]), q[n]);
      JoinedInjective(p[..m], q[..n]);
      assert p == p[..m] + [p[m]] && q == q[..n] + [q[n]];
    }
  }

  lemma {:induction false} SpelledClean(g: Graph, t: TypeId, w: Walk)
    requires IsWalk(g, t, w) && CleanGraph(g)
    ensures CleanPath(Spelled(g, t, w))
    decreases |w|
  {
    if w == [] {
    } else {
      SpelledClean(g, g.edges[t][w[0]].target, w[1..]);
    }
  }

  /** Where two simple walks with the same spelling part, they take equal edges. */
  lemma SameSpelling(g: Graph, root: TypeId, v: Walk, w: Walk)
    requires StepsDetermine(g) && SimpleWalk(g, root, v) && SimpleWalk(g, root, w)
    requires v != w && Spelled(g, root, v) == Spelled(g, root, w)
    ensures ReachesTwoEdges(g, root)
  {
    SpelledSize(g, root, v);
    SpelledSize(g, root, w);
    var i := FirstDifference(v, w);
    UpTo(g, root, v, i);
    UpTo(g, root, w, i);
    var p, vs := v[..i], Visited(g, root, v);
    var es, u := g.edges[End(g, root, p)], vs[i + 1];
    assert es[v[i]] == es[w[i]];
    var lo, hi := if v[i] < w[i] then v[i] else w[i], if v[i] < w[i] then w[i] else v[i];
    assert lo < hi && es[lo] == es[hi] && es[hi].target == u;
    assert TwoEdges(g, End(g, root, p), u);
    InGraph(g, root, v, i + 1);
    assert SimpleWalk(g, root, p) && u !in Visited(g, root, p);
  }

  lemma {:induction false} InGraph(g: Graph, t: TypeId, v: Walk, i: nat)
    requires IsWalk(g, t, v) && i <= |v|
    ensures Visited(g, t, v)[i] < |g.edges|
    decreases |v|
  {
    if i == 0 {
    } else {
      InGraph(g, g.edges[t][v[0]].target, v[1..], i - 1);
    }
  }

  /**
   When steps determine where they lead and names are clean, an entry is recorded twice exactly when a simple
   walk reaches a TypeId with two equal edges to one that it has not visited.
   */
  lemma RepeatsIffTwoEdges(g: Graph, root: TypeId)
    requires root < |g.edges| && StepsDetermine(g) && CleanGraph(g)
    ensures Repeats(Recorded(g, root)) <==> ReachesTwoEdges(g, root)
  {
    if ReachesTwoEdges(g, root) {
      TwoEdgesRepeat(g, root);
    }
    if Repeats(Recorded(g, root)) {
      GathersSimpleWalks(g, root);
      var v, w := SameEntry(g, root, Walks(g, [], root));
      assert [] + Spelled(g, root, v) == Spelled(g, root, v) && [] + Spelled(g, root, w) == Spelled(g, root, w);
      SpelledClean(g, root, v);
      SpelledClean(g, root, w);
      JoinedInjective(Spelled(g, root, v), Spelled(g, root, w));
      SameSpelling(g, root, v, w);
    }
  }

  lemma SameEntry(g: Graph, root: TypeId, ws: seq<Walk>) returns (v: Walk, w: Walk)
    requires Distinct(ws) && forall i :: 0 <= i < |ws| ==> IsWalk(g, root, ws[i])
    requires Repeats(Entries(g, [], root, ws))
    ensures v in ws && w in ws && v != w && EntryOf(g, [], root, v) == EntryOf(g, [], root, w)
  {
    var rs := Entries(g, [], root, ws);
    var a, b :| 0 <= a < b < |rs| && rs[a] == rs[b];
    v, w := ws[a], ws[b];
  }

  // ----- searches from several roots into one output

  /** Simple walks from r and from s spell the same path to the same TypeId. */
  ghost predicate ShareWalk(g: Graph, r: TypeId, s: TypeId) {
    exists v: Walk, w: Walk :: SimpleWalk(g, r, v) && SimpleWalk(g, s, w) && SameWay(g, r, v, s, w)
  }

  ghost predicate SameWay(g: Graph, r: TypeId, v: Walk, s: TypeId, w: Walk)
    requires IsWalk(g, r, v) && IsWalk(g, s, w)
  {
    End(g, r, v) == End(g, s, w) && Spelled(g, r, v) == Spelled(g, s, w)
  }

  ghost predicate SomeReachesTwoEdges(g: Graph, roots: seq<TypeId>) {
    exists i :: 0 <= i < |roots| && ReachesTwoEdges(g, roots[i])
  }

  ghost predicate SomeShareWalk(g: Graph, roots: seq<TypeId>) {
    exists i, j :: 0 <= i < j < |roots| && ShareWalk(g, roots[i], roots[j])
  }

  ghost predicate Registered(g: Graph, roots: seq<TypeId>) {
    forall i :: 0 <= i < |roots| ==> roots[i] < |g.edges|
  }

  lemma RepeatsOfConcat(a: seq<Entry>, b: seq<Entry>)
    ensures Repeats(a + b) <==> Repeats(a) || Repeats(b) || exists e :: e in a && e in b
  {
    var c := a + b;
    if Repeats(a) {
      var i, j :| 0 <= i < j < |a| && a[i] == a[j];
      assert c[i] == c[j];
    }
    if Repeats(b) {
      var i, j :| 0 <= i < j < |b| && b[i] == b[j];
      assert c[|a| + i] == c[|a| + j];
    }
    if e :| e in a && e in b {
      var i :| 0 <= i < |a| && a[i] == e;
      var j :| 0 <= j < |b| && b[j] == e;
      assert c[i] == c[|a| + j];
    }
    if Repeats(c) {
      var i, j :| 0 <= i < j < |c| && c[i] == c[j];
      if j < |a| {
        assert a[i] == a[j];
      } else if |a| <= i {
        assert b[i - |a|] == b[j - |a|];
      } else {
        assert c[i] in a && c[i] in b;
      }
    }
  }

  lemma InRecorded(g: Graph, root: TypeId, e: Entry)
    requires root < |g.edges|
    ensures e in Recorded(g, root)
       <==> exists w :: SimpleWalk(g, root, w) && End(g, root, w) == e.0 && e.1 == Joined(Spelled(g, root, w))
  {
    PathsAreSimpleWalks(g, root, e.0, e.1);
    InPathsTo(Recorded(g, root), e.0, e.1);
  }

  /** With clean names two searches record a common entry exactly when walks of both spell the same way. */
  lemma CommonEntry(g: Graph, r: TypeId, s: TypeId)
    requires r < |g.edges| && s < |g.edges| && CleanGraph(g)
    ensures (exists e :: e in Recorded(g, r) && e in Recorded(g, s)) <==> ShareWalk(g, r, s)
  {
    if e :| e in Recorded(g, r) && e in Recorded(g, s) {
      InRecorded(g, r, e);
      InRecorded(g, s, e);
      var v :| SimpleWalk(g, r, v) && End(g, r, v) == e.0 && e.1 == Joined(Spelled(g, r, v));
      var w :| SimpleWalk(g, s, w) && End(g, s, w) == e.0 && e.1 == Joined(Spelled(g, s, w));
      SpelledClean(g, r, v);
      SpelledClean(g, s, w);
      JoinedInjective(Spelled(g, r, v), Spelled(g, s, w));
      assert SameWay(g, r, v, s, w);
    }
    if ShareWalk(g, r, s) {
      var v: Walk, w: Walk :| SimpleWalk(g, r, v) && SimpleWalk(g, s, w) && SameWay(g, r, v, s, w);
      var e := (End(g, r, v), Joined(Spelled(g, r, v)));
      InRecorded(g, r, e);
      InRecorded(g, s, e);
    }
  }

  lemma {:induction false} InRecordedFrom(g: Graph, roots: seq<TypeId>, e: Entry)
    ensures e in RecordedFrom(g, roots) <==> exists i :: 0 <= i < |roots| && e in Recorded(g, roots[i])
  {
    if roots == [] {
    } else {
      var m := |roots| - 1;
      InRecordedFrom(g, roots[..m], e);
      assert forall i :: 0 <= i < m ==> roots[..m][i] == roots[i];
      if i :| 0 <= i < |roots| && e in Recorded(g, roots[i]) {
        assert i < m ==> e in Recorded(g, roots[..m][i]);
      }
    }
  }

  /** The last search adds a repetition of its own, or shares a walk with an earlier one. */
  lemma LastRootRepeats(g: Graph, roots: seq<TypeId>)
    requires roots != [] && Registered(g, roots) && StepsDetermine(g) && CleanGraph(g)
    ensures var m := |roots| - 1;
      Repeats(RecordedFrom(g, roots)) <==>
        || Repeats(RecordedFrom(g, roots[..m])) || ReachesTwoEdges(g, roots[m])
        || exists i :: 0 <= i < m && ShareWalk(g, roots[i], roots[m])
  {
    var m := |roots| - 1;
    var before, last := RecordedFrom(g, roots[..m]), Recorded(g, roots[m]);
    RepeatsOfConcat(before, last);
    RepeatsIffTwoEdges(g, roots[m]);
    if e :| e in before && e in last {
      InRecordedFrom(g, roots[..m], e);
      var i :| 0 <= i < m && e in Recorded(g, roots[..m][i]);
      CommonEntry(g, roots[i], roots[m]);
    }
    if i :| 0 <= i < m && ShareWalk(g, roots[i], roots[m]) {
      CommonEntry(g, roots[i], roots[m]);
      var e :| e in Recorded(g, roots[i]) && e in last;
      assert roots[..m][i] == roots[i];
      InRecordedFrom(g, roots[..m], e);
    }
  }

  /**
   When steps determine where they lead and names are clean, the searches from a list of roots record an entry
   twice exactly when one of them does, or two of them have walks that spell the same way to the same TypeId.
   */
  lemma {:induction false} RootsRepeatIff(g: Graph, roots: seq<TypeId>)
    requires Registered(g, roots) && StepsDetermine(g) && CleanGraph(g)
    ensures Repeats(RecordedFrom(g, roots)) <==> SomeReachesTwoEdges(g, roots) || SomeShareWalk(g, roots)
  {
    if roots == [] {
    } else {
      var m := |roots| - 1;
      var earlier := roots[..m];
      RootsRepeatIff(g, earlier);
      LastRootRepeats(g, roots);
      assert SomeReachesTwoEdges(g, roots) <==> SomeReachesTwoEdges(g, earlier) || ReachesTwoEdges(g, roots[m]) by {
        assert forall i :: 0 <= i < m ==> earlier[i] == roots[i];
        assert ReachesTwoEdges(g, roots[m]) ==> SomeReachesTwoEdges(g, roots);
        assert forall i :: 0 <= i < m && ReachesTwoEdges(g, roots[i]) ==> ReachesTwoEdges(g, earlier[i]);
      }
      SharingGrows(g, roots);
    }
  }

  lemma SharingGrows(g: Graph, roots: seq<TypeId>)
    requires roots != []
    ensures var m := |roots| - 1;
      SomeShareWalk(g, roots) <==>
        SomeShareWalk(g, roots[..m]) || exists i :: 0 <= i < m && ShareWalk(g, roots[i], roots[m])
  {
    var m := |roots| - 1;
    var earlier := roots[..m];
    if SomeShareWalk(g, roots) {
      var i, j :| 0 <= i < j < |roots| && ShareWalk(g, roots[i], roots[j]);
      assert j < m ==> ShareWalk(g, earlier[i], earlier[j]);
    }
    if SomeShareWalk(g, earlier) {
      var i, j :| 0 <= i < j < m && ShareWalk(g, earlier[i], earlier[j]);
      assert ShareWalk(g, roots[i], roots[j]);
    }
  }

  /** Whatever the names, what repeats in one search repeats in all of them together. */
  lemma {:induction false} OneRootRepeats(g: Graph, roots: seq<TypeId>, i: nat)
    requires i < |roots| && Repeats(Recorded(g, roots[i]))
    ensures Repeats(RecordedFrom(g, roots))
  {
    var m := |roots| - 1;
    RepeatsOfConcat(RecordedFrom(g, roots[..m]), Recorded(g, roots[m]));
    if i == m {
    } else {
      OneRootRepeats(g, roots[..m], i);
    }
  }

  /** A root that comes twice shares all of its walks with itself. */
  lemma SameRootShares(g: Graph, root: TypeId)
    requires root < |g.edges|
    ensures ShareWalk(g, root, root)
  {
    assert SimpleWalk(g, root, []) && SameWay(g, root, [], root, []);
  }

  lemma FirstStep(g: Graph, t: TypeId, v: Walk)
    requires IsWalk(g, t, v) && v != []
    ensures exists k :: 0 <= k < |g.edges[t]| && Spelled(g, t, v)[..1] == [g.edges[t][k].step]
  {
    assert Spelled(g, t, v)[..1] == [g.edges[t][v[0]].step];
  }

  /** Different roots that have no step in common share none. */
  lemma ApartRootsShareNothing(g: Graph, r: TypeId, s: TypeId)
    requires r < |g.edges| && s < |g.edges| && r != s
    requires forall j, k :: 0 <= j < |g.edges[r]| && 0 <= k < |g.edges[s]| ==> g.edges[r][j].step != g.edges[s][k].step
    ensures !ShareWalk(g, r, s)
  {
    if ShareWalk(g, r, s) {
      var v: Walk, w: Walk :| SimpleWalk(g, r, v) && SimpleWalk(g, s, w) && SameWay(g, r, v, s, w);
      SpelledSize(g, r, v);
      SpelledSize(g, s, w);
      if v != [] {
        FirstStep(g, r, v);
        FirstStep(g, s, w);
        assert false;
      }
      assert false;
    }
  }

  /** Two roots with equal edges to one TypeId repeat its entry although neither search repeats any. */
  lemma SharedTargetRepeats(g: Graph, x: string)
    requires g.edges == [[Edge(x, 2)], [Edge(x, 2)], []] && CleanName(x)
    ensures Repeats(RecordedFrom(g, [0, 1])) && !SomeReachesTwoEdges(g, [0, 1])
  {
    NoTwoEdges(g, 0);
    NoTwoEdges(g, 1);
    OneStep(g, 0, Edge(x, 2), 0);
    OneStep(g, 1, Edge(x, 2), 0);
    Extend(g, 0, [], 0);
    Extend(g, 1, [], 0);
    assert [] + [0] == [0];
    var roots := [0, 1];
    assert SameWay(g, 0, [0], 1, [0]);
    assert ShareWalk(g, roots[0], roots[1]);
    RootsRepeatIff(g, roots);
  }

  // ----- what the assumptions on names are for

  /** The walk along two edges. */
  lemma TwoSteps(g: Graph, t: TypeId, e: Edge, j: nat, f: Edge, k: nat)
    requires t < |g.edges| && j < |g.edges[t]| && e == g.edges[t][j]
    requires e.target < |g.edges| && k < |g.edges[e.target]| && f == g.edges[e.target][k]
    requires f.target < |g.edges| && e.target != t && f.target != t && f.target != e.target
    ensures SimpleWalk(g, t, [j]) && EntryOf(g, [], t, [j]) == (e.target, Joined([e.step]))
    ensures SimpleWalk(g, t, [j, k]) && EntryOf(g, [], t, [j, k]) == (f.target, Joined([e.step, f.step]))
  {
    Extend(g, t, [], j);
    assert [] + [j] == [j] && [j] + [k] == [j, k];
    assert Visited(g, t, [j]) == [t, e.target] && Spelled(g, t, [j]) == [e.step];
    assert [] + [e.step] == [e.step];
    Extend(g, t, [j], k);
    assert Visited(g, t, [j, k]) == [t, e.target, f.target];
    assert Spelled(g, t, [j, k]) == [e.step, f.step] && [] + [e.step, f.step] == [e.step, f.step];
  }

  lemma NoTwoEdges(g: Graph, root: TypeId)
    requires forall t :: 0 <= t < |g.edges| ==> |g.edges[t]| < 2 || (|g.edges[t]| == 2 && g.edges[t][0] != g.edges[t][1])
    ensures !ReachesTwoEdges(g, root)
  {}

  /** One step that leads to two TypeIds is enough to repeat an entry without two equal edges. */
  lemma StepsMustDetermine(g: Graph, a: string, b: string)
    requires g.edges == [[Edge(a, 1), Edge(a, 2)], [Edge(b, 3)], [Edge(b, 3)], []] && CleanName(a) && CleanName(b)
    ensures Repeats(Recorded(g, 0)) && !ReachesTwoEdges(g, 0) && CleanGraph(g)
  {
    TwoSteps(g, 0, Edge(a, 1), 0, Edge(b, 3), 0);
    TwoSteps(g, 0, Edge(a, 2), 1, Edge(b, 3), 0);
    Found(g, 0, [0, 0], [1, 0]);
    NoTwoEdges(g, 0);
  }

  /** So is a name with a slash. */
  lemma NamesMustBeClean(g: Graph, a: string, b: string, c: string)
    requires g.edges == [[Edge(a, 1), Edge(c, 2)], [Edge(b, 2)], []] && c == a + "/" + b
    ensures Repeats(Recorded(g, 0)) && !ReachesTwoEdges(g, 0) && StepsDetermine(g)
  {
    SlashHides(a, b);
    TwoWays(g, Edge(a, 1), Edge(b, 2), Edge(c, 2));
    assert a != c by { assert |a| < |c|; }
    NoTwoEdges(g, 0);
    assert StepsDetermineAt(g.edges[0]);
  }

  /** Directly and over one type between, to the same path string. */
  lemma TwoWays(g: Graph, e: Edge, f: Edge, d: Edge)
    requires g.edges == [[e, d], [f], []] && e.target == 1 && f.target == d.target == 2
    requires Joined([e.step, f.step]) == Joined([d.step])
    ensures Repeats(Recorded(g, 0))
  {
    TwoSteps(g, 0, e, 0, f, 0);
    OneStep(g, 0, d, 1);
    Found(g, 0, [0, 0], [1]);
  }

  lemma OneStep(g: Graph, t: TypeId, e: Edge, j: nat)
    requires t < |g.edges| && j < |g.edges[t]| && e == g.edges[t][j] && e.target < |g.edges| && e.target != t
    ensures SimpleWalk(g, t, [j]) && EntryOf(g, [], t, [j]) == (e.target, Joined([e.step]))
  {
    Extend(g, t, [], j);
    assert [] + [j] == [j] && [] + [e.step] == [e.step];
  }

  lemma SlashHides(a: string, b: string)
    ensures Joined([a, b]) == Joined([a + "/" + b])
  {
    assert [a, b][..1] == [a] && [a][..0] == [] && [a + "/" + b][..0] == [];
    assert Joined([a, b]) == Joined([a]) + ("/" + b);
    assert Joined([a]) == "" + ("/" + a);
    assert Joined([a + "/" + b]) == "" + ("/" + (a + "/" + b));
    assert ("" + ("/" + a)) + ("/" + b) == "" + ("/" + (a + "/" + b));
  }

  lemma Found(g: Graph, root: TypeId, v: Walk, w: Walk)
    requires root < |g.edges| && SimpleWalk(g, root, v) && SimpleWalk(g, root, w)
    requires v != w && EntryOf(g, [], root, v) == EntryOf(g, [], root, w)
    ensures Repeats(Recorded(g, root))
  {
    GathersSimpleWalks(g, root);
    EntryTwice(g, root, Walks(g, [], root), v, w);
  }
}
