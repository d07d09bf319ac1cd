/** Reachability from a list of roots through any child relation, and paths of steps. */
module Reachability {

  /** Nodes that some number of steps away from the roots leads to. */
  ghost predicate ReachableIn<T(!new)>(child: (T, T) -> bool, roots: seq<T>, d: T, n: nat)
    decreases n
  {
    if n == 0 then d in roots
    else exists p :: ReachableIn(child, roots, p, n - 1) && child(d, p)
  }

  ghost predicate Reaches<T(!new)>(child: (T, T) -> bool, roots: seq<T>, d: T) {
    exists n :: ReachableIn(child, roots, d, n)
  }

  /** A set that holds the roots and, with a node, its children. */
  ghost predicate Closed<T(!new)>(child: (T, T) -> bool, roots: seq<T>, t: set<T>) {
    (forall d :: d in roots ==> d in t) && (forall p, c :: p in t && child(c, p) ==> c in t)
  }

  lemma RootsReached<T(!new)>(child: (T, T) -> bool, roots: seq<T>, d: T)
    requires d in roots
    ensures Reaches(child, roots, d)
  {
    assert ReachableIn(child, roots, d, 0);
  }

  lemma ChildReached<T(!new)>(child: (T, T) -> bool, roots: seq<T>, p: T, c: T)
    requires Reaches(child, roots, p) && child(c, p)
    ensures Reaches(child, roots, c)
  {
    var n: nat :| ReachableIn(child, roots, p, n);
    assert ReachableIn(child, roots, c, n + 1);
  }

  lemma {:induction false} InClosed<T(!new)>(child: (T, T) -> bool, roots: seq<T>, t: set<T>, d: T, n: nat)
    requires Closed(child, roots, t) && ReachableIn(child, roots, d, n)
    ensures d in t
    decreases n
  {
    if n > 0 {
      var p :| ReachableIn(child, roots, p, n - 1) && child(d, p);
      InClosed(child, roots, t, p, n - 1);
    }
  }

  /** Whatever is reachable lies in every closed set: the reachable nodes are the least one. */
  lemma ReachableIsLeast<T(!new)>(child: (T, T) -> bool, roots: seq<T>, t: set<T>)
    requires Closed(child, roots, t)
    ensures forall d :: Reaches(child, roots, d) ==> d in t
  {
    forall d | Reaches(child, roots, d) ensures d in t {
      var n: nat :| ReachableIn(child, roots, d, n);
      InClosed(child, roots, t, d, n);
    }
  }

  /** A path of states: each follows from the one before by a step. */
  ghost predicate IsPath<S(!new)>(start: S, step: (S, S) -> bool, states: seq<S>) {
    && states != [] && states[0] == start
    && forall k :: 0 < k < |states| ==> Follows(step, states, k)
  }

  predicate Follows<S>(step: (S, S) -> bool, states: seq<S>, k: nat)
    requires 0 < k < |states|
  {
    step(states[k - 1], states[k])
  }

  /** What holds at the start and survives every step holds all along a path. */
  lemma {:induction false} PathKeeps<S(!new)>(start: S, step: (S, S) -> bool, states: seq<S>, keeps: S -> bool, k: nat)
    requires IsPath(start, step, states) && k < |states|
    requires keeps(start) && forall s, t :: keeps(s) && step(s, t) ==> keeps(t)
    ensures keeps(states[k])
  {
    if k > 0 {
      PathKeeps(start, step, states, keeps, k - 1);
      assert Follows(step, states, k);
    }
  }
}
