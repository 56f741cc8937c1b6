/**
 What several components say about sequences.
 */
module Sequences {

  /** No element comes twice. */
  ghost predicate Distinct<T>(s: seq<T>) {
    forall i, j :: 0 <= i < j < |s| ==> s[i] != s[j]
  }

  ghost predicate Increasing(idx: seq<nat>) {
    forall j, k :: 0 <= j < k < |idx| ==> idx[j] < idx[k]
  }

  /** The positions, in ascending order, of the elements that satisfy `keep`. */
  ghost predicate Selects<T(!new)>(idx: seq<nat>, s: seq<T>, keep: T -> bool) {
    && Increasing(idx)
    && (forall k :: 0 <= k < |idx| ==> idx[k] < |s| && keep(s[idx[k]]))
    && (forall i :: 0 <= i < |s| && keep(s[i]) ==> i in idx)
  }

  lemma SelectsNext<T(!new)>(idx: seq<nat>, s: seq<T>, keep: T -> bool, x: T)
    requires Selects(idx, s, keep)
    ensures Selects(if keep(x) then idx + [|s|] else idx, s + [x], keep)
  {
    var next := if keep(x) then idx + [|s|] else idx;
    var longer := s + [x];
    assert forall i :: 0 <= i < |s| ==> longer[i] == s[i];
    forall k | 0 <= k < |next| ensures next[k] < |longer| && keep(longer[next[k]]) {
      assert k < |idx| ==> keep(s[idx[k]]);
    }
    forall i | 0 <= i < |longer| && keep(longer[i]) ensures i in next {
      if i < |s| {
        assert keep(s[i]) && i in idx;
      }
    }
  }

  /** The positions selected in one more element of a longer sequence. */
  lemma SelectsLonger<T(!new)>(idx: seq<nat>, s: seq<T>, keep: T -> bool, n: nat) returns (next: seq<nat>)
    requires 0 < n <= |s| && Selects(idx, s[..n - 1], keep)
    ensures next == if keep(s[n - 1]) then idx + [n - 1] else idx
    ensures Selects(next, s[..n], keep)
  {
    var front, x := s[..n - 1], s[n - 1];
    assert s[..n] == front + [x] && |front| == n - 1;
    SelectsNext(idx, front, keep, x);
    next := if keep(x) then idx + [n - 1] else idx;
  }

  /** An element x stands somewhere before an element y. */
  ghost predicate StandsBefore<T(!new)>(s: seq<T>, x: T, y: T) {
    exists a, b :: 0 <= a < b < |s| && s[a] == x && s[b] == y
  }

  /** The elements of r stand in s in the same order. */
  ghost predicate InOrderOf<T(!new)>(r: seq<T>, s: seq<T>) {
    forall i, j :: 0 <= i < j < |r| ==> StandsBefore(s, r[i], r[j])
  }

  lemma StandsBeforeLonger<T(!new)>(s: seq<T>, x: T, y: T, z: T)
    ensures StandsBefore(s, x, y) ==> StandsBefore(s + [z], x, y)
    ensures x in s ==> StandsBefore(s + [z], x, z)
  {
    var t := s + [z];
    if StandsBefore(s, x, y) {
      var a, b :| 0 <= a < b < |s| && s[a] == x && s[b] == y;
      assert t[a] == x && t[b] == y;
    }
    if x in s {
      var a :| 0 <= a < |s| && s[a] == x;
      assert t[a] == x && t[|s|] == z;
    }
  }

  /** Behind both sequences comes the same element, or only behind the longer one. */
  lemma InOrderNext<T(!new)>(r: seq<T>, s: seq<T>, x: T)
    requires InOrderOf(r, s) && forall i :: 0 <= i < |r| ==> r[i] in s
    ensures InOrderOf(r, s + [x]) && InOrderOf(r + [x], s + [x])
  {
    var q := r + [x];
    forall i, j | 0 <= i < j < |q| ensures StandsBefore(s + [x], q[i], q[j]) {
      StandsBeforeLonger(s, q[i], q[j], x);
    }
    forall i, j | 0 <= i < j < |r| ensures StandsBefore(s + [x], r[i], r[j]) {
      StandsBeforeLonger(s, r[i], r[j], x);
    }
  }

  lemma InOrderOfLonger<T(!new)>(r: seq<T>, s: seq<T>, x: T, y: T)
    requires StandsBefore(r, x, y) && InOrderOf(r, s)
    ensures StandsBefore(s, x, y)
  {
    var a, b :| 0 <= a < b < |r| && r[a] == x && r[b] == y;
    assert StandsBefore(s, r[a], r[b]);
  }

  lemma InOrderTransitive<T(!new)>(q: seq<T>, r: seq<T>, s: seq<T>)
    requires InOrderOf(q, r) && InOrderOf(r, s)
    ensures InOrderOf(q, s)
  {
    forall i, j | 0 <= i < j < |q| ensures StandsBefore(s, q[i], q[j]) {
      assert StandsBefore(r, q[i], q[j]);
      InOrderOfLonger(r, s, q[i], q[j]);
    }
  }

  lemma InOrderOfItself<T(!new)>(s: seq<T>)
    ensures InOrderOf(s, s)
  {
    forall i, j | 0 <= i < j < |s| ensures StandsBefore(s, s[i], s[j]) {}
  }
}
