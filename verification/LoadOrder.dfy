/**
 sort_to_dependencies of bindings/python/ns__init__.py: libraries are placed layer by layer, each
 layer holding the pending libraries whose dependencies are all placed already.

 The recursion has no measure of its own: when no pending library can be loaded it calls itself with
 the same lists until Python's recursion limit stops it.  The limit is therefore part of the model.
 */
module LoadOrder {
  import opened Sequences

  type Deps = map<string, seq<string>>

  /** The three collections that dependency_order updates in place; steps[k] is the list of step k. */
  datatype Lists = Lists(pending: seq<string>, current: seq<string>, steps: seq<seq<string>>)

  /** The libraries are the keys of the dependency dictionary, in its order. */
  ghost predicate KeysOf(deps: Deps, libs: seq<string>) {
    Distinct(libs) && forall x :: x in libs <==> x in deps
  }

  // ----- one layer

  predicate Ready(deps: Deps, current: seq<string>, lib: string) {
    lib in deps && forall d :: d in deps[lib] ==> d in current
  }

  function Loadable(deps: Deps, pending: seq<string>, current: seq<string>): seq<string>
    decreases |pending|
  {
    if pending == [] then []
    else
      var m := |pending| - 1;
      Loadable(deps, pending[..m], current) + (if Ready(deps, current, pending[m]) then [pending[m]] else [])
  }

  function Without(pending: seq<string>, layer: seq<string>): seq<string> {
    if pending == [] then []
    else
      var m := |pending| - 1;
      Without(pending[..m], layer) + (if pending[m] in layer then [] else [pending[m]])
  }

  function NextLists(deps: Deps, s: Lists): Lists {
    var layer := Loadable(deps, s.pending, s.current);
    Lists(Without(s.pending, layer), s.current + layer, s.steps + [layer])
  }

  lemma {:induction false} LoadableContents(deps: Deps, pending: seq<string>, current: seq<string>)
    requires Distinct(pending)
    ensures forall x :: x in Loadable(deps, pending, current) <==> x in pending && Ready(deps, current, x)
    ensures Distinct(Loadable(deps, pending, current))
    decreases |pending|
  {
    if pending == [] {
    } else {
      var m := |pending| - 1;
      LoadableContents(deps, pending[..m], current);
      assert pending == pending[..m] + [pending[m]];
      assert pending[m] !in pending[..m];
    }
  }

  lemma {:induction false} WithoutContents(pending: seq<string>, layer: seq<string>)
    requires Distinct(pending)
    ensures forall x :: x in Without(pending, layer) <==> x in pending && x !in layer
    ensures Distinct(Without(pending, layer))
  {
    if pending == [] {
    } else {
      var m := |pending| - 1;
      WithoutContents(pending[..m], layer);
      assert pending == pending[..m] + [pending[m]];
      assert pending[m] !in pending[..m];
    }
  }

  // ----- what every layer keeps

  function Flatten(steps: seq<seq<string>>): seq<string> {
    if steps == [] then [] else Flatten(steps[..|steps| - 1]) + steps[|steps| - 1]
  }

  /** Each entry comes behind everything it depends on. */
  ghost predicate DepsFirst(deps: Deps, order: seq<string>) {
    forall i :: 0 <= i < |order| && order[i] in deps ==> forall d :: d in deps[order[i]] ==> d in order[..i]
  }

  ghost predicate ListsOk(deps: Deps, s: Lists) {
    && Distinct(s.pending) && Distinct(s.current)
    && (forall x :: x in s.pending ==> x !in s.current)
    && (forall x :: x in s.pending || x in s.current <==> x in deps)
    && s.current == Flatten(s.steps)
    && DepsFirst(deps, s.current)
  }

  function Start(libs: seq<string>): Lists {
    Lists(libs, [], [])
  }

  lemma DepsFirstGrows(deps: Deps, current: seq<string>, layer: seq<string>)
    requires DepsFirst(deps, current)
    requires forall x :: x in layer ==> Ready(deps, current, x)
    ensures DepsFirst(deps, current + layer)
  {
    var order := current + layer;
    forall i, d | 0 <= i < |order| && order[i] in deps && d in deps[order[i]] ensures d in order[..i] {
      if i < |current| {
        assert order[..i] == current[..i];
      } else {
        assert order[i] in layer && d in current;
        assert order[..i] == current + layer[..i - |current|];
      }
    }
  }

  lemma NextKeepsLists(deps: Deps, s: Lists)
    requires ListsOk(deps, s)
    ensures ListsOk(deps, NextLists(deps, s))
  {
    var layer := Loadable(deps, s.pending, s.current);
    LoadableContents(deps, s.pending, s.current);
    WithoutContents(s.pending, layer);
    DepsFirstGrows(deps, s.current, layer);
    assert (s.steps + [layer])[..|s.steps|] == s.steps;
    var t := NextLists(deps, s);
    forall i, j | 0 <= i < j < |t.current| ensures t.current[i] != t.current[j] {
      if i < |s.current| <= j {
        assert t.current[j] in layer && t.current[i] in s.current;
      }
    }
  }

  // ----- the lists after k layers

  function Rounds(deps: Deps, libs: seq<string>, k: nat): Lists
    decreases k
  {
    if k == 0 then Start(libs) else NextLists(deps, Rounds(deps, libs, k - 1))
  }

  /** In every step: nothing lost or placed twice, and dependencies come first. */
  lemma {:induction false} RoundsKeepLists(deps: Deps, libs: seq<string>, k: nat)
    requires KeysOf(deps, libs)
    ensures ListsOk(deps, Rounds(deps, libs, k))
    decreases k
  {
    if k == 0 {
    } else {
      RoundsKeepLists(deps, libs, k - 1);
      NextKeepsLists(deps, Rounds(deps, libs, k - 1));
    }
  }

  // ----- dependency chains

  /** A chain of dependencies; all but its last element must be libraries. */
  ghost predicate Chain(deps: Deps, c: seq<string>) {
    && c != []
    && forall i :: 0 <= i < |c| - 1 ==> c[i] in deps && c[i + 1] in deps[c[i]]
  }

  /** All chains from a library have at most n elements and end in a library. */
  ghost predicate Bounded(deps: Deps, lib: string, n: int) {
    forall c :: Chain(deps, c) && c[0] == lib ==> |c| <= n && c[|c| - 1] in deps
  }

  lemma BoundedStep(deps: Deps, lib: string, n: nat)
    ensures Bounded(deps, lib, n + 1) <==> lib in deps && forall d :: d in deps[lib] ==> Bounded(deps, d, n)
  {
    if Bounded(deps, lib, n + 1) {
      assert Chain(deps, [lib]);
      forall d, c | d in deps[lib] && Chain(deps, c) && c[0] == d ensures |c| <= n && c[|c| - 1] in deps {
        assert Chain(deps, [lib] + c);
      }
    }
    if lib in deps && forall d :: d in deps[lib] ==> Bounded(deps, d, n) {
      forall c | Chain(deps, c) && c[0] == lib ensures |c| <= n + 1 && c[|c| - 1] in deps {
        if |c| > 1 {
          assert Chain(deps, c[1..]) && c[1] in deps[lib];
          assert Bounded(deps, c[1], n);
        }
      }
    }
  }

  lemma PlacedAreReady(deps: Deps, s: Lists, lib: string)
    requires ListsOk(deps, s) && lib in s.current
    ensures Ready(deps, s.current, lib)
  {
    var i :| 0 <= i < |s.current| && s.current[i] == lib;
    assert forall d :: d in deps[lib] ==> d in s.current[..i];
  }

  /** One more layer places exactly the libraries whose dependencies were placed before. */
  lemma PlacedIffReady(deps: Deps, s: Lists, lib: string)
    requires ListsOk(deps, s)
    ensures lib in NextLists(deps, s).current <==> Ready(deps, s.current, lib)
  {
    LoadableContents(deps, s.pending, s.current);
    if lib in s.current {
      PlacedAreReady(deps, s, lib);
    }
  }

  lemma PlacedNext(deps: Deps, s: Lists, n: nat, lib: string)
    requires ListsOk(deps, s) && forall d :: d in s.current <==> Bounded(deps, d, n)
    ensures lib in NextLists(deps, s).current <==> Bounded(deps, lib, n + 1)
  {
    PlacedIffReady(deps, s, lib);
    BoundedStep(deps, lib, n);
  }

  lemma NothingBounded(deps: Deps, lib: string)
    ensures !Bounded(deps, lib, 0)
  {
    assert Chain(deps, [lib]);
  }

  ghost predicate PlacesBounded(deps: Deps, s: Lists, n: nat) {
    forall d :: d in s.current <==> Bounded(deps, d, n)
  }

  lemma PlacesNext(deps: Deps, s: Lists, n: nat)
    requires ListsOk(deps, s) && PlacesBounded(deps, s, n)
    ensures PlacesBounded(deps, NextLists(deps, s), n + 1)
  {
    forall d ensures d in NextLists(deps, s).current <==> Bounded(deps, d, n + 1) {
      PlacedNext(deps, s, n, d);
    }
  }

  lemma PlacesNothing(deps: Deps, libs: seq<string>)
    ensures PlacesBounded(deps, Start(libs), 0)
  {
    forall d ensures !Bounded(deps, d, 0) { NothingBounded(deps, d); }
  }

  /** Adding a layer to lists that are those of round k. */
  lemma PlacesNextRound(deps: Deps, libs: seq<string>, s: Lists, k: nat)
    requires KeysOf(deps, libs) && s == Rounds(deps, libs, k) && PlacesBounded(deps, s, k)
    ensures PlacesBounded(deps, Rounds(deps, libs, k + 1), k + 1)
  {
    RoundsKeepLists(deps, libs, k);
    PlacesNext(deps, s, k);
  }

  /** After k layers exactly those libraries are placed whose chains all have at most k elements. */
  lemma {:induction false} PlacedIffBounded(deps: Deps, libs: seq<string>, k: nat)
    requires KeysOf(deps, libs)
    ensures PlacesBounded(deps, Rounds(deps, libs, k), k)
    decreases k
  {
    if k == 0 {
      PlacesNothing(deps, libs);
    } else {
      PlacedIffBounded(deps, libs, k - 1);
      PlacesNextRound(deps, libs, Rounds(deps, libs, k - 1), k - 1);
    }
  }

  lemma {:induction false} StepsPrefix(deps: Deps, libs: seq<string>, k: nat)
    ensures |Rounds(deps, libs, k).steps| == k
    decreases k
  {
    if k == 0 {
    } else {
      StepsPrefix(deps, libs, k - 1);
    }
  }

  lemma LayerIsNew(deps: Deps, s: Lists, lib: string)
    requires ListsOk(deps, s)
    ensures var t := NextLists(deps, s);
      && |t.steps| == |s.steps| + 1
      && (lib in t.steps[|s.steps|] <==> lib in t.current && lib !in s.current)
  {
    LoadableContents(deps, s.pending, s.current);
  }

  /** A library is placed in step k exactly when its longest dependency chain has k + 1 elements. */
  lemma StepIsLongestChain(deps: Deps, libs: seq<string>, k: nat, lib: string)
    requires KeysOf(deps, libs)
    ensures |Rounds(deps, libs, k + 1).steps| == k + 1
    ensures lib in Rounds(deps, libs, k + 1).steps[k] <==> Bounded(deps, lib, k + 1) && !Bounded(deps, lib, k)
  {
    var s := Rounds(deps, libs, k);
    StepsPrefix(deps, libs, k);
    PlacedIffBounded(deps, libs, k);
    RoundsKeepLists(deps, libs, k);
    PlacesNext(deps, s, k);
    LayerIsNew(deps, s, lib);
  }

  // ----- the order within a layer and over all layers

  /** A layer keeps the order of the pending list. */
  lemma {:induction false} LoadableInOrder(deps: Deps, pending: seq<string>, current: seq<string>)
    requires Distinct(pending)
    ensures InOrderOf(Loadable(deps, pending, current), pending)
    decreases |pending|
  {
    if pending == [] {
    } else {
      var m := |pending| - 1;
      var before := Loadable(deps, pending[..m], current);
      LoadableInOrder(deps, pending[..m], current);
      LoadableContents(deps, pending[..m], current);
      InOrderNext(before, pending[..m], pending[m]);
      assert pending == pending[..m] + [pending[m]] && before + [] == before;
    }
  }

  /** So does what stays pending. */
  lemma {:induction false} WithoutInOrder(pending: seq<string>, layer: seq<string>)
    requires Distinct(pending)
    ensures InOrderOf(Without(pending, layer), pending)
  {
    if pending == [] {
    } else {
      var m := |pending| - 1;
      var before := Without(pending[..m], layer);
      WithoutInOrder(pending[..m], layer);
      WithoutContents(pending[..m], layer);
      InOrderNext(before, pending[..m], pending[m]);
      assert pending == pending[..m] + [pending[m]] && before + [] == before;
    }
  }

  lemma NextInOrder(deps: Deps, libs: seq<string>, s: Lists)
    requires InOrderOf(s.pending, libs) && Distinct(s.pending)
    ensures InOrderOf(NextLists(deps, s).pending, libs)
    ensures InOrderOf(Loadable(deps, s.pending, s.current), libs)
  {
    var layer := Loadable(deps, s.pending, s.current);
    LoadableInOrder(deps, s.pending, s.current);
    InOrderTransitive(layer, s.pending, libs);
    WithoutInOrder(s.pending, layer);
    InOrderTransitive(Without(s.pending, layer), s.pending, libs);
  }

  lemma {:induction false} PendingInOrder(deps: Deps, libs: seq<string>, k: nat)
    requires KeysOf(deps, libs)
    ensures InOrderOf(Rounds(deps, libs, k).pending, libs)
    decreases k
  {
    if k == 0 {
      InOrderOfItself(libs);
    } else {
      PendingInOrder(deps, libs, k - 1);
      RoundsKeepLists(deps, libs, k - 1);
      NextInOrder(deps, libs, Rounds(deps, libs, k - 1));
    }
  }

  /** In every step the libraries keep the order of the dictionary. */
  lemma StepKeepsOrder(deps: Deps, libs: seq<string>, k: nat)
    requires KeysOf(deps, libs)
    ensures |Rounds(deps, libs, k + 1).steps| == k + 1
    ensures InOrderOf(Rounds(deps, libs, k + 1).steps[k], libs)
  {
    PendingInOrder(deps, libs, k);
    RoundsKeepLists(deps, libs, k);
    NextInOrder(deps, libs, Rounds(deps, libs, k));
    StepsPrefix(deps, libs, k);
  }

  /** The longest chains of both libraries are equally long, or neither has one. */
  ghost predicate SameDepth(deps: Deps, x: string, y: string) {
    forall n: nat :: Bounded(deps, x, n) <==> Bounded(deps, y, n)
  }

  /** The chains of x are no longer than the longest of y. */
  ghost predicate NoDeeper(deps: Deps, x: string, y: string) {
    forall n: nat :: Bounded(deps, y, n) ==> Bounded(deps, x, n)
  }

  /** Shallow libraries first, and among equally deep ones the order of the dictionary. */
  ghost predicate Layered(deps: Deps, libs: seq<string>, order: seq<string>) {
    forall i, j :: 0 <= i < j < |order| ==> RightlyBefore(deps, libs, order[i], order[j])
  }

  lemma BoundedMore(deps: Deps, x: string, n: nat, k: nat)
    requires Bounded(deps, x, n) && n <= k
    ensures Bounded(deps, x, k)
  {}

  lemma DepthOfLayers(deps: Deps, x: string, y: string, k: nat)
    requires Bounded(deps, x, k + 1) && !Bounded(deps, y, k)
    ensures NoDeeper(deps, x, y) && (Bounded(deps, x, k) ==> !SameDepth(deps, x, y))
  {
    forall n: nat | Bounded(deps, y, n) ensures Bounded(deps, x, n) {
      if n <= k {
        BoundedMore(deps, y, n, k);
      } else {
        BoundedMore(deps, x, k + 1, n);
      }
    }
  }

  /** What stands before what: for two placed libraries. */
  ghost predicate RightlyBefore(deps: Deps, libs: seq<string>, x: string, y: string) {
    NoDeeper(deps, x, y) && (SameDepth(deps, x, y) ==> StandsBefore(libs, x, y))
  }

  /** A library placed earlier, or before it in the same layer. */
  lemma BeforeInLayer(deps: Deps, libs: seq<string>, x: string, y: string, k: nat)
    requires Bounded(deps, x, k + 1) && !Bounded(deps, y, k)
    requires Bounded(deps, x, k) || StandsBefore(libs, x, y)
    ensures RightlyBefore(deps, libs, x, y)
  {
    DepthOfLayers(deps, x, y, k);
  }

  /** What is placed at once are libraries whose longest chain is just one longer. */
  lemma LayerDepths(deps: Deps, s: Lists, k: nat)
    requires ListsOk(deps, s) && PlacesBounded(deps, s, k)
    ensures forall y :: y in Loadable(deps, s.pending, s.current) ==> Bounded(deps, y, k + 1) && !Bounded(deps, y, k)
    ensures forall x :: x in s.current ==> Bounded(deps, x, k) && Bounded(deps, x, k + 1)
  {
    PlacesNext(deps, s, k);
    LoadableContents(deps, s.pending, s.current);
    assert forall x :: x in s.current ==> x in NextLists(deps, s).current;
    assert forall y :: y in Loadable(deps, s.pending, s.current) ==> y in NextLists(deps, s).current && y !in s.current;
  }

  /** Each of the layer is rightly behind what was placed before, and behind what stands before it in libs. */
  ghost predicate RightlyBehind(deps: Deps, libs: seq<string>, current: seq<string>, layer: seq<string>) {
    forall x, y :: y in layer && (x in current || (x in layer && StandsBefore(libs, x, y))) ==>
      RightlyBefore(deps, libs, x, y)
  }

  lemma LayeredConcat(deps: Deps, libs: seq<string>, current: seq<string>, layer: seq<string>)
    requires Layered(deps, libs, current) && InOrderOf(layer, libs) && RightlyBehind(deps, libs, current, layer)
    ensures Layered(deps, libs, current + layer)
  {
    var order, m := current + layer, |current|;
    forall i, j | 0 <= i < j < |order| ensures RightlyBefore(deps, libs, order[i], order[j]) {
      if j < m {
        assert RightlyBefore(deps, libs, current[i], current[j]);
      } else if i < m {
        assert current[i] in current && layer[j - m] in layer;
      } else {
        assert StandsBefore(libs, layer[i - m], layer[j - m]);
      }
    }
  }

  lemma NextLayered(deps: Deps, libs: seq<string>, s: Lists, k: nat)
    requires ListsOk(deps, s) && PlacesBounded(deps, s, k) && Layered(deps, libs, s.current) && InOrderOf(s.pending, libs)
    ensures Layered(deps, libs, NextLists(deps, s).current)
  {
    var layer := Loadable(deps, s.pending, s.current);
    NextInOrder(deps, libs, s);
    LayerDepths(deps, s, k);
    forall x, y | y in layer && (x in s.current || (x in layer && StandsBefore(libs, x, y)))
      ensures RightlyBefore(deps, libs, x, y)
    {
      BeforeInLayer(deps, libs, x, y, k);
    }
    LayeredConcat(deps, libs, s.current, layer);
  }

  /** After any number of layers the placed libraries are ordered by depth, and then as in the dictionary. */
  lemma {:induction false} RoundsLayered(deps: Deps, libs: seq<string>, k: nat)
    requires KeysOf(deps, libs)
    ensures Layered(deps, libs, Rounds(deps, libs, k).current)
    decreases k
  {
    if k == 0 {
    } else {
      RoundsLayered(deps, libs, k - 1);
      NextRoundLayered(deps, libs, k - 1);
    }
  }

  lemma NextRoundLayered(deps: Deps, libs: seq<string>, k: nat)
    requires KeysOf(deps, libs) && Layered(deps, libs, Rounds(deps, libs, k).current)
    ensures Layered(deps, libs, Rounds(deps, libs, k + 1).current)
  {
    RoundsKeepLists(deps, libs, k);
    PlacedIffBounded(deps, libs, k);
    PendingInOrder(deps, libs, k);
    NextLayered(deps, libs, Rounds(deps, libs, k), k);
  }

  // ----- when the ordering ends

  ghost predicate Closed(deps: Deps) {
    forall x, d :: x in deps && d in deps[x] ==> d in deps
  }

  ghost predicate Acyclic(deps: Deps) {
    forall c :: Chain(deps, c) && |c| > 1 ==> c[0] != c[|c| - 1]
  }

  /** All libraries are placed after k layers. */
  ghost predicate DoneAfter(deps: Deps, libs: seq<string>, k: nat) {
    Rounds(deps, libs, k).pending == []
  }

  lemma DoneIffBounded(deps: Deps, libs: seq<string>, k: nat)
    requires KeysOf(deps, libs)
    ensures DoneAfter(deps, libs, k) <==> forall x :: x in deps ==> Bounded(deps, x, k)
  {
    var s := Rounds(deps, libs, k);
    RoundsKeepLists(deps, libs, k);
    PlacedIffBounded(deps, libs, k);
    if s.pending != [] {
      assert s.pending[0] in s.pending;
    }
  }

  lemma {:induction false} Pigeonhole(c: seq<string>, libs: seq<string>)
    requires Distinct(c) && forall i :: 0 <= i < |c| ==> c[i] in libs
    ensures |c| <= |libs|
    decreases |libs|
  {
    if c == [] {
    } else {
      assert c[0] in libs;
      var m := |libs| - 1;
      assert libs == libs[..m] + [libs[m]];
      if k :| 0 <= k < |c| && c[k] == libs[m] {
        Pigeonhole(c[..k] + c[k + 1..], libs[..m]);
      } else {
        Pigeonhole(c, libs[..m]);
      }
    }
  }

  lemma ChainIsShort(deps: Deps, libs: seq<string>, c: seq<string>)
    requires KeysOf(deps, libs) && Closed(deps) && Acyclic(deps) && Chain(deps, c) && c[0] in deps
    ensures |c| <= |libs| && c[|c| - 1] in deps
  {
    forall i | 0 <= i < |c| ensures c[i] in libs {
      if i > 0 {
        assert c[i - 1] in deps && c[i - 1 + 1] in deps[c[i - 1]];
      }
    }
    forall i, j | 0 <= i < j < |c| ensures c[i] != c[j] {
      assert Chain(deps, c[i..j + 1]);
    }
    Pigeonhole(c, libs);
  }

  /** Going round a cycle gives chains of any length. */
  lemma {:induction false} Pump(deps: Deps, c: seq<string>, n: nat) returns (p: seq<string>)
    requires Chain(deps, c) && |c| > 1 && c[0] == c[|c| - 1]
    ensures Chain(deps, p) && |p| > n && p[0] == c[0]
    decreases n
  {
    if n == 0 {
      p := c;
    } else {
      var q := Pump(deps, c, n - 1);
      var m := |c| - 1;
      p := c[..m] + q;
      forall i | 0 <= i < |p| - 1 ensures p[i] in deps && p[i + 1] in deps[p[i]] {
        if i < m {
          assert p[i] == c[i] && p[i + 1] == c[i + 1];
        } else {
          assert p[i] == q[i - m] && p[i + 1] == q[i - m + 1];
        }
      }
    }
  }

  /**
   The ordering ends, given enough recursion, exactly when every dependency is itself one of the
   libraries and no library depends on itself, directly or through others.
   */
  lemma EndsIffAcyclic(deps: Deps, libs: seq<string>)
    requires KeysOf(deps, libs)
    ensures (exists k: nat :: DoneAfter(deps, libs, k)) <==> Closed(deps) && Acyclic(deps)
    ensures Closed(deps) && Acyclic(deps) ==> DoneAfter(deps, libs, |libs|)
  {
    if Closed(deps) && Acyclic(deps) {
      forall x | x in deps ensures Bounded(deps, x, |libs|) {
        forall c | Chain(deps, c) && c[0] == x ensures |c| <= |libs| && c[|c| - 1] in deps {
          ChainIsShort(deps, libs, c);
        }
      }
      DoneIffBounded(deps, libs, |libs|);
    }
    if k: nat :| DoneAfter(deps, libs, k) {
      DoneIffBounded(deps, libs, k);
      forall x, d | x in deps && d in deps[x] ensures d in deps {
        assert Bounded(deps, x, k) && Chain(deps, [x, d]);
      }
      forall c | Chain(deps, c) && |c| > 1 ensures c[0] != c[|c| - 1] {
        if c[0] == c[|c| - 1] {
          assert Bounded(deps, c[0], k);
          var p := Pump(deps, c, k);
        }
      }
    }
  }

  // ----- the code

  datatype Outcome = Ordered(steps: seq<seq<string>>) | RecursionError

  class Loader {
    const deps: Deps
    var pending: seq<string>
    var current: seq<string>
    var steps: seq<seq<string>>

    ghost function Now(): Lists
      reads this
    {
      Lists(pending, current, steps)
    }

    constructor (deps: Deps, libs: seq<string>)
      ensures this.deps == deps && Now() == Start(libs)
    {
      this.deps := deps;
      pending, current, steps := libs, [], [];
    }

    method ModulesThatCanBeLoaded() returns (modules: seq<string>)
      requires forall i :: 0 <= i < |pending| ==> pending[i] in deps
      ensures modules == Loadable(deps, pending, current)
    {
      modules := [];
      for i := 0 to |pending|
        invariant modules == Loadable(deps, pending[..i], current)
      {
        var canBeLoaded := true;
        var dependencies := deps[pending[i]];
        for k := 0 to |dependencies|
          invariant canBeLoaded && forall m :: 0 <= m < k ==> dependencies[m] in current
        {
          if dependencies[k] !in current {
            canBeLoaded := false;
            break;
          }
        }
        assert canBeLoaded <==> Ready(deps, current, pending[i]);
        assert pending[..i + 1][..i] == pending[..i];
        if !canBeLoaded {
          continue;
        }
        modules := modules + [pending[i]];
      }
      assert pending[..|pending|] == pending;
    }

    /** list.remove: the first occurrence goes. */
    method RemovePending(module': string)
      requires module' in pending && Distinct(pending)
      modifies this`pending
      ensures pending == Without(old(pending), [module'])
    {
      var i := 0;
      while pending[i] != module'
        invariant 0 <= i < |pending| && module' !in pending[..i] && pending == old(pending)
        decreases |pending| - i
      {
        i := i + 1;
        assert pending[..i] == pending[..i - 1] + [pending[i - 1]];
        assert pending == pending[..i] + pending[i..];
      }
      RemovedAt(pending, i);
      pending := pending[..i] + pending[i + 1..];
    }

    /** Move the modules of a layer from the pending to the current ones and into the last step. */
    method PlaceModules(layer: seq<string>)
      requires Distinct(pending) && Distinct(layer) && (forall x :: x in layer ==> x in pending) && steps != []
      modifies this
      ensures pending == Without(old(pending), layer) && current == old(current) + layer
      ensures steps == old(steps)[|old(steps)| - 1 := old(steps)[|old(steps)| - 1] + layer]
    {
      ghost var before, last := pending, steps[|steps| - 1];
      WithoutNothing(before);
      assert last + layer[..0] == last;
      for i := 0 to |layer|
        invariant pending == Without(before, layer[..i])
        invariant current == old(current) + layer[..i]
        invariant steps == old(steps)[|old(steps)| - 1 := last + layer[..i]]
      {
        WithoutStep(before, layer, i);
        NextOne(last, layer, i);
        NextOne(old(current), layer, i);
        steps := steps[|steps| - 1 := steps[|steps| - 1] + [layer[i]]];
        RemovePending(layer[i]);
        current := current + [layer[i]];
      }
      assert layer[..|layer|] == layer;
    }

    /** One layer: dependency_order up to its recursive call. */
    method PlaceLayer()
      requires Distinct(pending) && forall i :: 0 <= i < |pending| ==> pending[i] in deps
      modifies this
      ensures Now() == NextLists(deps, old(Now()))
    {
      steps := steps + [[]];
      var layer := ModulesThatCanBeLoaded();
      LoadableContents(deps, pending, current);
      PlaceModules(layer);
      assert [] + layer == layer;
    }

    /** dependency_order with `limit` stack frames left to it. */
    method DependencyOrder(ghost libs: seq<string>, limit: nat) returns (result: Outcome)
      requires KeysOf(deps, libs) && Now() == Rounds(deps, libs, |steps|)
      modifies this
      ensures result == OrderFrom(deps, libs, old(|steps|), limit)
      decreases limit
    {
      if limit == 0 {
        return RecursionError;
      }
      if |pending| == 0 {
        return Ordered(steps);
      }
      PendingAreLibraries(deps, libs, |steps|);
      NextRound(deps, libs, Now());
      PlaceLayer();
      result := DependencyOrder(libs, limit - 1);
    }
  }

  ghost function StepsAfter(deps: Deps, libs: seq<string>, k: nat): seq<seq<string>> {
    Rounds(deps, libs, k).steps
  }

  /** What dependency_order returns after k layers, with `limit` stack frames left to it. */
  ghost function OrderFrom(deps: Deps, libs: seq<string>, k: nat, limit: nat): Outcome
    decreases limit
  {
    if limit == 0 then RecursionError
    else if DoneAfter(deps, libs, k) then Ordered(StepsAfter(deps, libs, k))
    else OrderFrom(deps, libs, k + 1, limit - 1)
  }

  lemma PendingAreLibraries(deps: Deps, libs: seq<string>, k: nat)
    requires KeysOf(deps, libs)
    ensures var s := Rounds(deps, libs, k);
      Distinct(s.pending) && forall i :: 0 <= i < |s.pending| ==> s.pending[i] in deps
  {
    RoundsKeepLists(deps, libs, k);
  }

  lemma NextRound(deps: Deps, libs: seq<string>, s: Lists)
    requires s == Rounds(deps, libs, |s.steps|)
    ensures var t := NextLists(deps, s); |t.steps| == |s.steps| + 1 && t == Rounds(deps, libs, |t.steps|)
  {}

  /** It fails exactly when no layer within the limit is the last one. */
  lemma {:induction false} OrderFails(deps: Deps, libs: seq<string>, k: nat, limit: nat)
    ensures OrderFrom(deps, libs, k, limit).RecursionError? <==>
      forall m: nat :: k <= m < k + limit ==> !DoneAfter(deps, libs, m)
    decreases limit
  {
    if limit > 0 && !DoneAfter(deps, libs, k) {
      OrderFails(deps, libs, k + 1, limit - 1);
    }
  }

  /** Otherwise it returns the steps of the layer that emptied the pending list. */
  lemma {:induction false} OrderSucceeds(deps: Deps, libs: seq<string>, k: nat, limit: nat) returns (m: nat)
    requires OrderFrom(deps, libs, k, limit).Ordered?
    ensures DoneAfter(deps, libs, m) && OrderFrom(deps, libs, k, limit) == Ordered(StepsAfter(deps, libs, m))
    decreases limit
  {
    if DoneAfter(deps, libs, k) {
      m := k;
    } else {
      m := OrderSucceeds(deps, libs, k + 1, limit - 1);
    }
  }

  lemma WithoutStep(pending: seq<string>, layer: seq<string>, i: nat)
    requires Distinct(pending) && Distinct(layer) && (forall x :: x in layer ==> x in pending) && i < |layer|
    ensures var w := Without(pending, layer[..i]);
      && layer[i] in w && Distinct(w)
      && Without(w, [layer[i]]) == Without(pending, layer[..i + 1])
  {
    WithoutContents(pending, layer[..i]);
    WithoutMore(pending, layer[..i], layer[i]);
    assert layer[i] in layer && layer[i] !in layer[..i];
    assert layer[..i + 1] == layer[..i] + [layer[i]];
  }

  lemma NextOne(before: seq<string>, layer: seq<string>, i: nat)
    requires i < |layer|
    ensures before + layer[..i] + [layer[i]] == before + layer[..i + 1]
  {}

  lemma {:induction false} WithoutNothing(pending: seq<string>)
    ensures Without(pending, []) == pending
  {
    if pending == [] {
    } else {
      var m := |pending| - 1;
      WithoutNothing(pending[..m]);
      assert pending == pending[..m] + [pending[m]];
    }
  }

  lemma {:induction false} WithoutMore(pending: seq<string>, layer: seq<string>, x: string)
    ensures Without(Without(pending, layer), [x]) == Without(pending, layer + [x])
  {
    if pending == [] {
    } else {
      var m := |pending| - 1;
      WithoutMore(pending[..m], layer, x);
      var w := Without(pending[..m], layer);
      if pending[m] !in layer {
        assert (w + [pending[m]])[..|w|] == w;
      } else {
        assert w + [] == w;
      }
    }
  }

  lemma {:induction false} RemovedAt(s: seq<string>, i: nat)
    requires i < |s| && Distinct(s)
    ensures Without(s, [s[i]]) == s[..i] + s[i + 1..]
  {
    var m := |s| - 1;
    if i == m {
      WithoutOther(s[..m], s[i]);
      assert s[..m] + s[m + 1..] == s[..m];
    } else {
      RemovedAt(s[..m], i);
      assert s[..m][i] == s[i] && s[m] != s[i];
      assert Without(s, [s[i]]) == Without(s[..m], [s[i]]) + [s[m]];
      assert s[..m][..i] == s[..i] && s[..m][i + 1..] + [s[m]] == s[i + 1..];
      assert s[..i] + s[..m][i + 1..] + [s[m]] == s[..i] + (s[..m][i + 1..] + [s[m]]);
    }
  }

  lemma {:induction false} WithoutOther(s: seq<string>, x: string)
    requires x !in s
    ensures Without(s, [x]) == s
  {
    if s == [] {
    } else {
      var m := |s| - 1;
      assert s == s[..m] + [s[m]];
      WithoutOther(s[..m], x);
    }
  }

  /** sort_to_dependencies: the layers one after the other. */
  method SortToDependencies(deps: Deps, libs: seq<string>, limit: nat) returns (ok: bool, sorted: seq<string>)
    requires KeysOf(deps, libs)
    ensures ok <==> limit > 0 && forall x :: x in deps ==> Bounded(deps, x, limit - 1)
    ensures ok ==> multiset(sorted) == multiset(libs) && Distinct(sorted) && DepsFirst(deps, sorted)
    ensures ok ==> Layered(deps, libs, sorted)
  {
    var loader := new Loader(deps, libs);
    var result := loader.DependencyOrder(libs, limit);
    sorted := [];
    OrderFails(deps, libs, 0, limit);
    if limit > 0 {
      DoneIffBounded(deps, libs, limit - 1);
    }
    forall m: nat | m < limit && DoneAfter(deps, libs, m) ensures forall x :: x in deps ==> Bounded(deps, x, limit - 1) {
      DoneIffBounded(deps, libs, m);
      forall x | x in deps ensures Bounded(deps, x, limit - 1) {
        assert Bounded(deps, x, m);
      }
    }
    if result.RecursionError? {
      return false, sorted;
    }
    ok := true;
    for i := 0 to |result.steps|
      invariant sorted == Flatten(result.steps[..i])
    {
      assert result.steps[..i + 1][..i] == result.steps[..i];
      sorted := sorted + result.steps[i];
    }
    assert result.steps[..|result.steps|] == result.steps;
    ghost var k := OrderSucceeds(deps, libs, 0, limit);
    RoundsKeepLists(deps, libs, k);
    RoundsLayered(deps, libs, k);
    SameElements(sorted, libs);
  }

  lemma {:induction false} SameElements(a: seq<string>, b: seq<string>)
    requires Distinct(a) && Distinct(b) && forall x :: x in a <==> x in b
    ensures multiset(a) == multiset(b)
  {
    forall x ensures multiset(a)[x] == multiset(b)[x] {
      CountDistinct(a, x);
      CountDistinct(b, x);
    }
  }

  lemma {:induction false} CountDistinct(s: seq<string>, x: string)
    requires Distinct(s)
    ensures multiset(s)[x] == if x in s then 1 else 0
  {
    if s == [] {
    } else {
      var m := |s| - 1;
      assert s == s[..m] + [s[m]];
      CountDistinct(s[..m], x);
    }
  }
}
