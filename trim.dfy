/** Trimming: the states reachable from the initial state, then repeated removal of dead
    ends (states that are not accepting and that no transition leaves), and finally the
    alphabet recomputed from the transitions that remain. The initial state and the
    accepting states are left as they are. */
module Trimming {
  import opened Automata

  /** Every state reachable from `s` along `T`, `s` included. */
  ghost function Reachable(T: set<Transition>, s: State): set<State>
  {
    set x | x in Endpoints(T) + {s} && Reaches(T, s, x)
  }

  /** The states the trimming starts from: those reachable from the initial state, or
      none when there is no initial state. */
  ghost function Start(T: set<Transition>, initial: Option<State>): set<State>
  {
    if initial.Some? then Reachable(T, initial.value) else {}
  }

  /** The states some transition of `T` leaves from. */
  function Sources(T: set<Transition>): set<State>
  {
    set t | t in T :: t.src
  }

  /** The transitions of `T` with both ends in `S`. */
  function Restrict(T: set<Transition>, S: set<State>): set<Transition>
  {
    set t | t in T && t.src in S && t.dst in S
  }

  /** A transition of `T` leaving `S` arrives in `S`. */
  ghost predicate Closed(S: set<State>, T: set<Transition>)
  {
    forall t | t in T && t.src in S :: t.dst in S
  }

  /** One pass of dead-end removal: the states of `S` that are accepting or that some
      transition of `T` leaves from. */
  function Pass(S: set<State>, T: set<Transition>, F: set<State>): set<State>
  {
    S * (F + Sources(T))
  }

  /** Dead-end removal repeated while a pass removes a state; the transitions are
      restricted to the surviving states after every pass. */
  function Prune(S: set<State>, T: set<Transition>, F: set<State>): (r: (set<State>, set<Transition>))
    ensures r.0 <= S && r.1 <= T
    ensures forall t | t in r.1 :: t.src in r.0 && t.dst in r.0
    decreases |S|
  {
    var S' := Pass(S, T, F);
    var T' := Restrict(T, S');
    if |S'| < |S| then Prune(S', T', F) else (S', T')
  }

  /** The trimmed automaton. */
  ghost function Optimized(a: Automaton): Automaton
  {
    var r := Prune(Start(a.transitions, a.initial), a.transitions, a.accepting);
    a.(states := r.0, transitions := r.1, alphabet := Symbols(r.1))
  }

  // ---------------------------------------------------------------------------
  // Reachability

  /** The reachable states are closed under the transitions and contain the start. */
  lemma ReachableClosed(T: set<Transition>, s: State)
    ensures s in Reachable(T, s) && Closed(Reachable(T, s), T)
  {
    assert IsPath(T, [], s, s);
    forall t | t in T && t.src in Reachable(T, s) ensures t.dst in Reachable(T, s) {
      var p :| IsPath(T, p, s, t.src);
      PathSnoc(T, p, s, t.src, t);
    }
  }

  /** A state of a set closed under `T` that contains `s` is reached from `s` when it
      is reachable; every reachable state is in every such set. */
  lemma ReachableLeast(T: set<Transition>, s: State, S: set<State>)
    requires s in S && Closed(S, T)
    ensures Reachable(T, s) <= S
  {
    forall x | x in Reachable(T, s) ensures x in S {
      var p :| IsPath(T, p, s, x);
      PathInClosed(S, T, p, s, x);
    }
  }

  lemma StartClosed(T: set<Transition>, initial: Option<State>)
    ensures Closed(Start(T, initial), T)
    ensures initial.Some? ==> initial.value in Start(T, initial)
  {
    if initial.Some? {
      ReachableClosed(T, initial.value);
    }
  }

  // ---------------------------------------------------------------------------
  // Dead-end removal

  /** A walk of `T` from a state of the closed set `S` to a state that survives the pass
      survives the pass entirely: its start survives and its transitions are kept. */
  lemma {:induction false} PassKeepsPath(S: set<State>, T: set<Transition>, F: set<State>, p: seq<Transition>, y: State, x: State)
    requires Closed(S, T) && y in S && IsPath(T, p, y, x) && x in Pass(S, T, F)
    ensures y in Pass(S, T, F) && IsPath(Restrict(T, Pass(S, T, F)), p, y, x)
    decreases |p|
  {
    if p != [] {
      var t := p[0];
      assert t.src == y && t in T;
      PassKeepsPath(S, T, F, p[1..], t.dst, x);
    }
  }

  /** Every walk from a state of a closed set to an accepting state survives trimming. */
  lemma {:induction false} PruneKeepsLive(S: set<State>, T: set<Transition>, F: set<State>, p: seq<Transition>, y: State, f: State)
    requires Closed(S, T) && y in S && IsPath(T, p, y, f) && f in F
    ensures y in Prune(S, T, F).0 && IsPath(Prune(S, T, F).1, p, y, f)
    decreases |S|
  {
    PathInClosed(S, T, p, y, f);
    var S' := Pass(S, T, F);
    PassKeepsPath(S, T, F, p, y, f);
    if |S'| < |S| {
      PruneKeepsLive(S', Restrict(T, S'), F, p, y, f);
    }
  }

  /** When every state of the closed set `S` is reached from `i`, so is every state that
      survives trimming, along the surviving transitions; and if anything survives, `i`
      does. */
  lemma {:induction false} PruneConnected(S: set<State>, T: set<Transition>, F: set<State>, i: State)
    requires Closed(S, T) && i in S
    requires forall x | x in S :: Reaches(T, i, x)
    ensures Prune(S, T, F).0 != {} ==> i in Prune(S, T, F).0
    ensures forall x | x in Prune(S, T, F).0 :: Reaches(Prune(S, T, F).1, i, x)
    decreases |S|
  {
    var S' := Pass(S, T, F);
    var T' := Restrict(T, S');
    forall x | x in S' ensures i in S' && Reaches(T', i, x) {
      var p :| IsPath(T, p, i, x);
      PassKeepsPath(S, T, F, p, i, x);
    }
    if |S'| < |S| && i in S' {
      PruneConnected(S', T', F, i);
    }
  }

  /** When trimming starts from a closed set, every surviving state is accepting or is
      left by a surviving transition. */
  lemma {:induction false} PruneTrimmed(S: set<State>, T: set<Transition>, F: set<State>)
    requires Closed(S, T)
    ensures forall x | x in Prune(S, T, F).0 :: x in F || exists t | t in Prune(S, T, F).1 :: t.src == x
    decreases |S|
  {
    var S' := Pass(S, T, F);
    var T' := Restrict(T, S');
    if |S'| < |S| {
      PruneTrimmed(S', T', F);
    } else {
      SubsetSameSize(S', S);
      forall x | x in S' && x !in F ensures exists t | t in T' :: t.src == x {
        var t :| t in T && t.src == x;
        assert t in T';
      }
    }
  }

  lemma {:induction false} SubsetSameSize<X>(A: set<X>, B: set<X>)
    requires A <= B && |A| >= |B|
    ensures A == B
  {
    assert B == A + (B - A);
    assert B - A == {};
  }

  /** A set on which a pass removes nothing and whose transitions stay inside it is left
      unchanged by trimming. */
  lemma PruneStable(S: set<State>, T: set<Transition>, F: set<State>)
    requires forall x | x in S :: x in F || exists t | t in T :: t.src == x
    requires forall t | t in T :: t.src in S && t.dst in S
    ensures Prune(S, T, F) == (S, T)
  {
    assert Pass(S, T, F) == S;
    assert Restrict(T, S) == T;
  }

  // ---------------------------------------------------------------------------
  // Properties of the trimmed automaton

  /** Trimming keeps the initial and the accepting states, keeps only reachable states
      and original transitions, and derives the alphabet from the kept transitions. */
  lemma OptimizeShrinks(a: Automaton)
    ensures Optimized(a).initial == a.initial && Optimized(a).accepting == a.accepting
    ensures Optimized(a).states <= Start(a.transitions, a.initial)
    ensures Optimized(a).transitions <= a.transitions
    ensures Optimized(a).alphabet == Symbols(Optimized(a).transitions)
    ensures forall t | t in Optimized(a).transitions :: t.src in Optimized(a).states && t.dst in Optimized(a).states
  {
  }

  /** Every kept state is accepting or is left by a kept transition. */
  lemma OptimizeTrimmed(a: Automaton)
    ensures forall x | x in Optimized(a).states ::
      x in a.accepting || exists t | t in Optimized(a).transitions :: t.src == x
  {
    StartClosed(a.transitions, a.initial);
    PruneTrimmed(Start(a.transitions, a.initial), a.transitions, a.accepting);
  }

  /** A state reachable from the initial state that reaches an accepting state is kept,
      with every transition of a walk that gets it there. */
  lemma OptimizeKeepsLive(a: Automaton, p: seq<Transition>, x: State, f: State)
    requires a.initial.Some? && Reaches(a.transitions, a.initial.value, x)
    requires IsPath(a.transitions, p, x, f) && f in a.accepting
    ensures x in Optimized(a).states && IsPath(Optimized(a).transitions, p, x, f)
  {
    var S := Start(a.transitions, a.initial);
    StartClosed(a.transitions, a.initial);
    var q :| IsPath(a.transitions, q, a.initial.value, x);
    PathInClosed(S, a.transitions, q, a.initial.value, x);
    PruneKeepsLive(S, a.transitions, a.accepting, p, x, f);
  }

  /** Every kept state is reached from the initial state along kept transitions, so
      when the initial state is not kept nothing is. */
  lemma OptimizeConnected(a: Automaton)
    ensures a.initial.None? || a.initial.value !in Optimized(a).states ==>
      Optimized(a).states == {} && Optimized(a).transitions == {}
    ensures a.initial.Some? ==>
      forall x | x in Optimized(a).states :: Reaches(Optimized(a).transitions, a.initial.value, x)
  {
    var S := Start(a.transitions, a.initial);
    var r := Prune(S, a.transitions, a.accepting);
    if a.initial.Some? {
      var i := a.initial.value;
      StartClosed(a.transitions, a.initial);
      PruneConnected(S, a.transitions, a.accepting, i);
    } else {
      assert S == {};
    }
    if r.0 == {} {
      assert r.1 == {};
    }
  }

  /** Trimming a trimmed automaton changes nothing. */
  lemma OptimizeIdempotent(a: Automaton)
    ensures Optimized(Optimized(a)) == Optimized(a)
  {
    var b := Optimized(a);
    if a.initial.Some? && a.initial.value in b.states {
      RestartKept(a);
      OptimizeTrimmed(a);
      OptimizeShrinks(a);
      PruneStable(b.states, b.transitions, a.accepting);
    } else if a.initial.Some? {
      RestartDropped(a);
    } else {
      OptimizeConnected(a);
      assert Start(b.transitions, b.initial) == {};
      assert Pass({}, {}, a.accepting) == {} && Restrict({}, {}) == {};
    }
  }

  /** When the initial state is kept, the states reachable from it along the kept
      transitions are exactly the kept states. */
  lemma RestartKept(a: Automaton)
    requires a.initial.Some? && a.initial.value in Optimized(a).states
    ensures Start(Optimized(a).transitions, a.initial) == Optimized(a).states
  {
    var b := Optimized(a);
    var S, T, i := b.states, b.transitions, a.initial.value;
    OptimizeConnected(a);
    OptimizeShrinks(a);
    forall x | x in S ensures x in Reachable(T, i) {
      var p :| IsPath(T, p, i, x);
      PathEnd(T, p, i, x);
    }
    ReachableLeast(T, i, S);
  }

  /** When the initial state is dropped, trimming again keeps nothing. */
  lemma RestartDropped(a: Automaton)
    requires a.initial.Some? && a.initial.value !in Optimized(a).states
    ensures Optimized(Optimized(a)) == Optimized(a)
  {
    var b := Optimized(a);
    var i := a.initial.value;
    OptimizeConnected(a);
    assert b.states == {} && b.transitions == {};
    ReachableAlone(i);
    DroppedNotAccepting(a);
    PruneSingle(i, a.accepting);
  }

  /** Without transitions only the start is reachable. */
  lemma ReachableAlone(i: State)
    ensures Reachable({}, i) == {i}
  {
    assert IsPath({}, [], i, i);
  }

  /** An accepting initial state is never dropped. */
  lemma DroppedNotAccepting(a: Automaton)
    requires a.initial.Some? && a.initial.value !in Optimized(a).states
    ensures a.initial.value !in a.accepting
  {
    var i := a.initial.value;
    if i in a.accepting {
      assert IsPath(a.transitions, [], i, i);
      OptimizeKeepsLive(a, [], i, i);
    }
  }

  /** A lone state that is not accepting and has no transitions is removed. */
  lemma PruneSingle(i: State, F: set<State>)
    requires i !in F
    ensures Prune({i}, {}, F) == ({}, {})
  {
    assert Pass({i}, {}, F) == {};
    assert Pass({}, {}, F) == {} && Restrict({}, {}) == {};
  }

  /** Trimming does not change the accepted words. */
  lemma OptimizeLanguage(a: Automaton, w: seq<char>)
    ensures Accepts(Optimized(a), w) <==> Accepts(a, w)
  {
    var b := Optimized(a);
    if Accepts(b, w) {
      var p, f :| IsPath(b.transitions, p, b.initial.value, f) && f in b.accepting && Word(p) == w;
      PathMono(b.transitions, a.transitions, p, b.initial.value, f);
    }
    if Accepts(a, w) {
      var i := a.initial.value;
      var p, f :| IsPath(a.transitions, p, i, f) && f in a.accepting && Word(p) == w;
      assert IsPath(a.transitions, [], i, i);
      OptimizeKeepsLive(a, p, i, f);
    }
  }
}
