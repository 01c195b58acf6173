/** The automaton data model: states identified by their labels, transitions as
    (source, destination, symbol) triples, and the automaton aggregate with its five sets.
    Runs of an automaton (paths through its transition relation) and the language it
    accepts are defined here too, so that product construction and trimming can be
    related to what the automaton recognises. */
module Automata {

  datatype Option<T> = None | Some(value: T)

  datatype Result<T, E> = Ok(value: T) | Err(error: E)

  /** A state is its label: two states with equal labels are the same state. */
  datatype State = State(id: string)

  /** Equality of transitions is structural over all three components. */
  datatype Transition = Transition(src: State, dst: State, symbol: char)

  /** The automaton aggregate. `initial` is absent for a text without an `#initial`
      section. The sets are not required to be consistent with each other. */
  datatype Automaton = Automaton(
    states: set<State>,
    initial: Option<State>,
    accepting: set<State>,
    alphabet: set<char>,
    transitions: set<Transition>)

  /** The text of an optional state: the empty string when it is absent. */
  function Label(s: Option<State>): string
  {
    if s.Some? then s.value.id else ""
  }

  /** The automaton a parse starts from: everything empty, no initial state. */
  const Empty: Automaton := Automaton({}, None, {}, {}, {})

  /** The validity check: an initial state that is one of the states, and accepting
      states that are all states. Transitions are not checked. */
  predicate IsValid(a: Automaton)
  {
    a.initial.Some? && a.initial.value in a.states && a.accepting <= a.states
  }

  /** Every state some transition leaves from or arrives at. */
  function Endpoints(T: set<Transition>): set<State>
  {
    (set t | t in T :: t.src) + (set t | t in T :: t.dst)
  }

  /** The symbols that occur on the transitions `T`. */
  function Symbols(T: set<Transition>): set<char>
  {
    set t | t in T :: t.symbol
  }

  /** `p` is a walk along transitions of `T` from `from` to `to`. */
  ghost predicate IsPath(T: set<Transition>, p: seq<Transition>, from: State, to: State)
    decreases |p|
  {
    if p == [] then from == to
    else p[0] in T && p[0].src == from && IsPath(T, p[1..], p[0].dst, to)
  }

  /** The symbols read along a walk. */
  function Word(p: seq<Transition>): (w: seq<char>)
    ensures |w| == |p|
    ensures forall k | 0 <= k < |p| :: w[k] == p[k].symbol
  {
    if p == [] then [] else [p[0].symbol] + Word(p[1..])
  }

  ghost predicate Reaches(T: set<Transition>, from: State, to: State)
  {
    exists p :: IsPath(T, p, from, to)
  }

  /** `a` accepts `w` when some walk from the initial state reads `w` and ends in an
      accepting state. */
  ghost predicate Accepts(a: Automaton, w: seq<char>)
  {
    a.initial.Some? &&
    exists p, f :: IsPath(a.transitions, p, a.initial.value, f) && f in a.accepting && Word(p) == w
  }

  /** A walk along `T` is a walk along every superset of `T`. */
  lemma {:induction false} PathMono(T: set<Transition>, U: set<Transition>, p: seq<Transition>, x: State, y: State)
    requires T <= U && IsPath(T, p, x, y)
    ensures IsPath(U, p, x, y)
    decreases |p|
  {
    if p != [] {
      PathMono(T, U, p[1..], p[0].dst, y);
    }
  }

  /** A walk extended by one more transition. */
  lemma {:induction false} PathSnoc(T: set<Transition>, p: seq<Transition>, x: State, y: State, t: Transition)
    requires IsPath(T, p, x, y) && t in T && t.src == y
    ensures IsPath(T, p + [t], x, t.dst)
    ensures Word(p + [t]) == Word(p) + [t.symbol]
    decreases |p|
  {
    if p == [] {
      assert [t][1..] == [];
    } else {
      assert (p + [t])[1..] == p[1..] + [t];
      PathSnoc(T, p[1..], p[0].dst, y, t);
    }
  }

  /** A walk ends in its start or in the destination of one of its transitions. */
  lemma {:induction false} PathEnd(T: set<Transition>, p: seq<Transition>, x: State, y: State)
    requires IsPath(T, p, x, y)
    ensures y == x || y in Endpoints(T)
    decreases |p|
  {
    if p != [] {
      PathEnd(T, p[1..], p[0].dst, y);
    }
  }

  /** A walk that starts inside a set closed under the successor relation of `T`
      stays inside it. */
  lemma {:induction false} PathInClosed(S: set<State>, T: set<Transition>, p: seq<Transition>, x: State, y: State)
    requires forall t | t in T && t.src in S :: t.dst in S
    requires x in S && IsPath(T, p, x, y)
    ensures y in S
    decreases |p|
  {
    if p != [] {
      PathInClosed(S, T, p[1..], p[0].dst, y);
    }
  }
}
