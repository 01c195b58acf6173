/** Concrete automata that pin down behaviour the set-level lemmas leave implicit: what
    the validity check lets through, and what trimming does to an empty product. */
module Scenarios {
  import opened Automata
  import opened Product
  import opened Trimming
  import opened Printing

  /** Two automata over different symbols that each accept one one-letter word. */
  function OnlyX(): Automaton
  {
    Automaton({State("s0"), State("s1")}, Some(State("s0")), {State("s1")}, {'x'},
              {Transition(State("s0"), State("s1"), 'x')})
  }

  function OnlyY(): Automaton
  {
    Automaton({State("s0"), State("s1")}, Some(State("s0")), {State("s1")}, {'y'},
              {Transition(State("s0"), State("s1"), 'y')})
  }

  /** Transitions are not part of the validity check: one that leaves the states and
      reads a symbol outside the alphabet still gives a valid automaton. */
  lemma DanglingTransitionValid()
    ensures var a := Automaton({State("q")}, Some(State("q")), {}, {}, {Transition(State("q"), State("r"), 'z')});
            IsValid(a) && State("r") !in a.states && 'z' !in a.alphabet
  {
  }

  /** An automaton without transitions whose initial state is not accepting loses every
      state to trimming, the initial state included, so it prints as the fixed message. */
  lemma NoTransitionsTrimmed(a: Automaton, l: Layout)
    requires a.transitions == {} && a.initial.Some? && a.initial.value !in a.accepting
    ensures Optimized(a).states == {} && Optimized(a).transitions == {}
    ensures Optimized(a).initial == a.initial
    ensures PrintText(Optimized(a), l) == "Invalid DFA."
  {
    ReachableAlone(a.initial.value);
    PruneSingle(a.initial.value, a.accepting);
  }

  /** The product of `OnlyX` and `OnlyY`, which share no word, has no transitions;
      trimming it drops every state, the initial state included, so the trimmed product
      is not valid and prints as the fixed message. */
  lemma EmptyProduct(l: Layout)
    ensures Intersect(OnlyX(), OnlyY()).transitions == {}
    ensures Optimized(Intersect(OnlyX(), OnlyY())).states == {}
    ensures Optimized(Intersect(OnlyX(), OnlyY())).initial == Some(State("s0_s0"))
    ensures PrintText(Optimized(Intersect(OnlyX(), OnlyY())), l) == "Invalid DFA."
  {
    var p := Intersect(OnlyX(), OnlyY());
    assert PairTransitions(OnlyX().transitions, OnlyY().transitions) == {};
    var i := State("s0_s0");
    assert "s0" + "_" + "s0" == "s0_s0";
    assert p.initial == Some(i);
    assert p.accepting == {State("s1_s1")} by {
      assert "s1" + "_" + "s1" == "s1_s1";
      assert PairStates({State("s1")}, {State("s1")}) == {Pair(State("s1"), State("s1"))};
    }
    ReachableAlone(i);
    assert i !in p.accepting by {
      assert "s0_s0"[1] != "s1_s1"[1];
    }
    PruneSingle(i, p.accepting);
  }

  /** When no symbol occurs on transitions of both automata, the product has no
      transitions, and neither has its trimmed form. */
  lemma DisjointSymbols(a: Automaton, b: Automaton)
    requires Symbols(a.transitions) !! Symbols(b.transitions)
    ensures Intersect(a, b).transitions == {}
    ensures Optimized(Intersect(a, b)).transitions == {} && Optimized(Intersect(a, b)).alphabet == {}
  {
    forall t1, t2 | t1 in a.transitions && t2 in b.transitions ensures t1.symbol != t2.symbol {
      assert t1.symbol in Symbols(a.transitions) && t2.symbol in Symbols(b.transitions);
    }
    OptimizeShrinks(Intersect(a, b));
  }
}
