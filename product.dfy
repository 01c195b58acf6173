/** The product construction: a state for every pair of states, labelled by joining the
    two labels with `_`, and a transition for every pair of transitions on the same
    symbol. The labels, not the pairs, identify product states, so two different pairs
    can collide; when the left labels contain no `_` they cannot. */
module Product {
  import opened Text
  import opened Automata

  /** The product state of `p` and `q`. */
  function Pair(p: State, q: State): State
  {
    State(p.id + "_" + q.id)
  }

  /** The label contains no `_`, so it can be read back out of a product label. */
  predicate NoJoin(s: State)
  {
    '_' !in s.id
  }

  /** Every pair of a state of `S1` and a state of `S2`. */
  function PairStates(S1: set<State>, S2: set<State>): set<State>
  {
    set p, q | p in S1 && q in S2 :: Pair(p, q)
  }

  /** Every pair of transitions of `T1` and `T2` that read the same symbol. */
  function PairTransitions(T1: set<Transition>, T2: set<Transition>): set<Transition>
  {
    set t1, t2 | t1 in T1 && t2 in T2 && t1.symbol == t2.symbol ::
      Transition(Pair(t1.src, t2.src), Pair(t1.dst, t2.dst), t1.symbol)
  }

  /** The product of `a` and `b`. */
  function Intersect(a: Automaton, b: Automaton): (r: Automaton)
    ensures r.initial.Some? && r.alphabet == a.alphabet + b.alphabet
    ensures a.initial.Some? && b.initial.Some? ==> r.initial == Some(Pair(a.initial.value, b.initial.value))
  {
    Automaton(
      PairStates(a.states, b.states),
      Some(State(Label(a.initial) + "_" + Label(b.initial))),
      PairStates(a.accepting, b.accepting),
      a.alphabet + b.alphabet,
      PairTransitions(a.transitions, b.transitions))
  }

  /** An absent initial state contributes the empty text to the product's initial label. */
  lemma AbsentInitial(a: Automaton, b: Automaton)
    requires a.initial.None?
    ensures Intersect(a, b).initial.value.id == "_" + Label(b.initial)
  {
    assert "" + "_" + Label(b.initial) == "_" + Label(b.initial);
  }

  /** With a left label free of `_`, a product label determines its pair. */
  lemma PairInjective(p1: State, q1: State, p2: State, q2: State)
    requires NoJoin(p1) && NoJoin(p2)
    ensures Pair(p1, q1) == Pair(p2, q2) <==> p1 == p2 && q1 == q2
  {
    if Pair(p1, q1) == Pair(p2, q2) {
      var s := p1.id + "_" + q1.id;
      assert s == p1.id + ("_" + q1.id) && s == p2.id + ("_" + q2.id);
      IndexOfAfter(p1.id, "_" + q1.id, '_');
      IndexOfAfter(p2.id, "_" + q2.id, '_');
      assert |p1.id| == |p2.id|;
      assert p1.id == s[..|p1.id|] == p2.id;
      assert q1.id == s[|p1.id| + 1..] == q2.id;
    }
  }

  /** Two different pairs whose product labels coincide. */
  lemma PairCollision()
    ensures Pair(State("a"), State("b_c")) == Pair(State("a_b"), State("c"))
    ensures State("a") != State("a_b")
  {
    assert "a" + "_" + "b_c" == "a_b" + "_" + "c";
    assert "a"[..] != "a_b";
  }

  /** The pairs with a fixed left state. */
  function Row(p: State, S2: set<State>): set<State>
  {
    set q | q in S2 :: Pair(p, q)
  }

  lemma {:induction false} RowSize(p: State, S2: set<State>)
    requires NoJoin(p)
    ensures |Row(p, S2)| == |S2|
    decreases |S2|
  {
    if S2 == {} {
      assert Row(p, S2) == {};
    } else {
      var q :| q in S2;
      var rest := S2 - {q};
      RowSize(p, rest);
      assert Row(p, S2) == Row(p, rest) + {Pair(p, q)};
      forall q' | q' in rest ensures Pair(p, q') != Pair(p, q) {
        PairInjective(p, q', p, q);
      }
    }
  }

  /** With left labels free of `_`, there are exactly |S1|·|S2| product states. */
  lemma {:induction false} PairStatesSize(S1: set<State>, S2: set<State>)
    requires forall p | p in S1 :: NoJoin(p)
    ensures |PairStates(S1, S2)| == |S1| * |S2|
    decreases |S1|
  {
    if S1 == {} {
      assert PairStates(S1, S2) == {};
    } else {
      var p :| p in S1;
      var rest := S1 - {p};
      PairStatesSize(rest, S2);
      RowSize(p, S2);
      RowApart(rest, p, S2);
      assert PairStates(S1, S2) == PairStates(rest, S2) + Row(p, S2);
      calc {
        |S1| * |S2|;
        (|rest| + 1) * |S2|;
        |rest| * |S2| + |S2|;
      }
    }
  }

  /** The row of a left state not in `S1` shares no product state with `S1`'s pairs. */
  lemma RowApart(S1: set<State>, p: State, S2: set<State>)
    requires forall p | p in S1 :: NoJoin(p)
    requires NoJoin(p) && p !in S1
    ensures PairStates(S1, S2) * Row(p, S2) == {}
  {
    forall x | x in PairStates(S1, S2) && x in Row(p, S2) ensures false {
      var p1, q1 :| p1 in S1 && q1 in S2 && x == Pair(p1, q1);
      var q2 :| q2 in S2 && x == Pair(p, q2);
      PairInjective(p1, q1, p, q2);
    }
  }

  /** The product of two valid automata is valid. */
  lemma IntersectValid(a: Automaton, b: Automaton)
    requires IsValid(a) && IsValid(b)
    ensures IsValid(Intersect(a, b))
  {
    var r := Intersect(a, b);
    assert r.initial.value == Pair(a.initial.value, b.initial.value);
    forall x | x in r.accepting ensures x in r.states {
      var p, q :| p in a.accepting && q in b.accepting && x == Pair(p, q);
    }
  }

  /** Walks of the two automata reading the same word run side by side in the product. */
  lemma {:induction false} Zip(T1: set<Transition>, T2: set<Transition>, p1: seq<Transition>, p2: seq<Transition>,
                               x: State, y: State, fx: State, fy: State) returns (p: seq<Transition>)
    requires IsPath(T1, p1, x, fx) && IsPath(T2, p2, y, fy) && Word(p1) == Word(p2)
    ensures IsPath(PairTransitions(T1, T2), p, Pair(x, y), Pair(fx, fy)) && Word(p) == Word(p1)
    decreases |p1|
  {
    if p1 == [] {
      assert p2 == [];
      p := [];
    } else {
      var t1, t2 := p1[0], p2[0];
      assert t1.symbol == Word(p1)[0] == Word(p2)[0] == t2.symbol;
      assert Word(p1[1..]) == Word(p1)[1..] == Word(p2)[1..] == Word(p2[1..]);
      var rest := Zip(T1, T2, p1[1..], p2[1..], t1.dst, t2.dst, fx, fy);
      var t := Transition(Pair(t1.src, t2.src), Pair(t1.dst, t2.dst), t1.symbol);
      assert t in PairTransitions(T1, T2);
      p := [t] + rest;
      assert p[1..] == rest;
    }
  }

  /** A walk of the product projects onto walks of both automata reading the same word,
      provided the left labels can be read back. */
  lemma {:induction false} Unzip(T1: set<Transition>, T2: set<Transition>, p: seq<Transition>, x: State, y: State, f: State)
    returns (p1: seq<Transition>, p2: seq<Transition>, fx: State, fy: State)
    requires forall t | t in T1 :: NoJoin(t.src) && NoJoin(t.dst)
    requires NoJoin(x) && IsPath(PairTransitions(T1, T2), p, Pair(x, y), f)
    ensures IsPath(T1, p1, x, fx) && IsPath(T2, p2, y, fy)
    ensures f == Pair(fx, fy) && NoJoin(fx) && Word(p1) == Word(p) && Word(p2) == Word(p)
    decreases |p|
  {
    if p == [] {
      p1, p2, fx, fy := [], [], x, y;
    } else {
      var t := p[0];
      var t1, t2 :| t1 in T1 && t2 in T2 && t1.symbol == t2.symbol
                    && t == Transition(Pair(t1.src, t2.src), Pair(t1.dst, t2.dst), t1.symbol);
      PairInjective(x, y, t1.src, t2.src);
      var r1, r2;
      r1, r2, fx, fy := Unzip(T1, T2, p[1..], t1.dst, t2.dst, f);
      p1 := [t1] + r1;
      p2 := [t2] + r2;
      assert p1[1..] == r1 && p2[1..] == r2;
    }
  }

  /** The labels of `a` that the product reads back: the initial state, the accepting
      states and the ends of every transition. */
  predicate Plain(a: Automaton)
  {
    (a.initial.Some? ==> NoJoin(a.initial.value))
    && (forall s | s in a.accepting :: NoJoin(s))
    && (forall t | t in a.transitions :: NoJoin(t.src) && NoJoin(t.dst))
  }

  /** The product accepts exactly the words both automata accept, when both have an
      initial state and the left automaton's labels contain no `_`. */
  lemma IntersectLanguage(a: Automaton, b: Automaton, w: seq<char>)
    requires a.initial.Some? && b.initial.Some? && Plain(a)
    ensures Accepts(Intersect(a, b), w) <==> Accepts(a, w) && Accepts(b, w)
  {
    var r := Intersect(a, b);
    var x, y := a.initial.value, b.initial.value;
    assert r.initial.value == Pair(x, y);
    if Accepts(r, w) {
      var p, f :| IsPath(r.transitions, p, Pair(x, y), f) && f in r.accepting && Word(p) == w;
      var p1, p2, fx, fy := Unzip(a.transitions, b.transitions, p, x, y, f);
      var ax, bx :| ax in a.accepting && bx in b.accepting && f == Pair(ax, bx);
      PairInjective(fx, fy, ax, bx);
      assert IsPath(a.transitions, p1, x, fx) && fx in a.accepting && Word(p1) == w;
      assert IsPath(b.transitions, p2, y, fy) && fy in b.accepting && Word(p2) == w;
    }
    if Accepts(a, w) && Accepts(b, w) {
      var p1, fx :| IsPath(a.transitions, p1, x, fx) && fx in a.accepting && Word(p1) == w;
      var p2, fy :| IsPath(b.transitions, p2, y, fy) && fy in b.accepting && Word(p2) == w;
      var p := Zip(a.transitions, b.transitions, p1, p2, x, y, fx, fy);
      assert Pair(fx, fy) in r.accepting;
      assert IsPath(r.transitions, p, r.initial.value, Pair(fx, fy));
    }
  }
}
