/** The automaton engine as an object: the five sets are fields that the parser fills
    line by line and that trimming overwrites in place. Every method is proved against
    the value-level definitions of the other modules. */
module Engine {
  import opened Text
  import opened Automata
  import opened Parsing
  import opened Product
  import opened Trimming
  import opened Printing

  class DFA {
    var states: set<State>
    var initial: Option<State>
    var accepting: set<State>
    var alphabet: set<char>
    var transitions: set<Transition>

    /** The automaton the object holds. */
    function Value(): Automaton
      reads this
    {
      Automaton(states, initial, accepting, alphabet, transitions)
    }

    /** An automaton with nothing in it and no initial state. */
    constructor ()
      ensures Value() == Automata.Empty
    {
      states, initial, accepting, alphabet, transitions := {}, None, {}, {}, {};
    }

    constructor Of(a: Automaton)
      ensures Value() == a
    {
      states, initial, accepting, alphabet, transitions := a.states, a.initial, a.accepting, a.alphabet, a.transitions;
    }

    // -------------------------------------------------------------------------
    // Product construction

    /** The product of two automata, built by nested loops over their sets. */
    static method Intersect(d1: DFA, d2: DFA) returns (d: DFA)
      ensures fresh(d) && d.Value() == Product.Intersect(d1.Value(), d2.Value())
    {
      var states := PairUp(d1.states, d2.states);
      var initial := State(Label(d1.initial) + "_" + Label(d2.initial));
      var accepting := PairUp(d1.accepting, d2.accepting);
      var alphabet := d1.alphabet + d2.alphabet;
      var transitions := SyncTransitions(d1.transitions, d2.transitions);
      d := new DFA.Of(Automaton(states, Some(initial), accepting, alphabet, transitions));
    }

    /** Every pair of a state of `S1` and a state of `S2`. */
    static method PairUp(S1: set<State>, S2: set<State>) returns (r: set<State>)
      ensures r == PairStates(S1, S2)
    {
      r := {};
      var rest1 := S1;
      ghost var done1 := {};
      while rest1 != {}
        invariant done1 + rest1 == S1
        invariant r == PairStates(done1, S2)
        decreases |rest1|
      {
        var s1 :| s1 in rest1;
        var row := PairRow(s1, S2);
        r := r + row;
        PairStatesAdd(done1, s1, S2);
        rest1, done1 := rest1 - {s1}, done1 + {s1};
      }
    }

    /** The pairs of `s1` with every state of `S2`: the inner loop of `PairUp`. */
    static method PairRow(s1: State, S2: set<State>) returns (r: set<State>)
      ensures r == Row(s1, S2)
    {
      r := {};
      var rest2 := S2;
      ghost var done2 := {};
      while rest2 != {}
        invariant done2 + rest2 == S2
        invariant r == Row(s1, done2)
        decreases |rest2|
      {
        var s2 :| s2 in rest2;
        RowAdd(s1, done2, s2);
        r := r + {Pair(s1, s2)};
        rest2, done2 := rest2 - {s2}, done2 + {s2};
      }
    }

    /** Every pair of transitions of `T1` and `T2` on the same symbol. */
    static method SyncTransitions(T1: set<Transition>, T2: set<Transition>) returns (r: set<Transition>)
      ensures r == PairTransitions(T1, T2)
    {
      r := {};
      var rest1 := T1;
      ghost var done1 := {};
      while rest1 != {}
        invariant done1 + rest1 == T1
        invariant r == PairTransitions(done1, T2)
        decreases |rest1|
      {
        var t1 :| t1 in rest1;
        var row := SyncWith(t1, T2);
        r := r + row;
        PairTransitionsAdd(done1, t1, T2);
        rest1, done1 := rest1 - {t1}, done1 + {t1};
      }
    }

    /** The pairs of `t1` with the transitions of `T2` on the same symbol: the inner
        loop of `SyncTransitions`. */
    static method SyncWith(t1: Transition, T2: set<Transition>) returns (r: set<Transition>)
      ensures r == SyncRow(t1, T2)
    {
      r := {};
      var rest2 := T2;
      ghost var done2 := {};
      while rest2 != {}
        invariant done2 + rest2 == T2
        invariant r == SyncRow(t1, done2)
        decreases |rest2|
      {
        var t2 :| t2 in rest2;
        SyncRowAdd(t1, done2, t2);
        if t1.symbol == t2.symbol {
          r := r + {Transition(Pair(t1.src, t2.src), Pair(t1.dst, t2.dst), t1.symbol)};
        }
        rest2, done2 := rest2 - {t2}, done2 + {t2};
      }
    }

    // -------------------------------------------------------------------------
    // Parsing

    /** The single pass of the parser over the lines of `text`. */
    static method ParseDFA(text: string) returns (r: Result<DFA, ParseError>)
      ensures r.Ok? <==> Parse(text).Ok?
      ensures r.Ok? ==> fresh(r.value) && r.value.Value() == Parse(text).value
      ensures r.Err? ==> r.error == Parse(text).error
    {
      var lines := Lines(text);
      var status := NoSection;
      var dfa := new DFA();
      var i := 0;
      assert lines[i..] == lines;
      while i < |lines|
        invariant 0 <= i <= |lines| && fresh(dfa)
        invariant ParseLines(lines[i..], status, dfa.Value()) == Parse(text)
        decreases |lines| - i
      {
        var line := lines[i];
        assert lines[i..][0] == line && lines[i..][1..] == lines[i + 1..];
        if IsHeader(line) {
          status := SetStatus(line);
        } else {
          match status
          case States =>
            dfa.states := dfa.states + {ParseState(line)};
          case Initial =>
            dfa.initial := Some(ParseState(line));
          case Accepting =>
            dfa.accepting := dfa.accepting + {ParseState(line)};
          case Alphabet =>
            var c := ParseSymbol(line);
            if c.Err? {
              return Err(c.error);
            }
            dfa.alphabet := dfa.alphabet + {c.value};
          case Transitions =>
            var ts := ParseTransition(line);
            if ts.Err? {
              return Err(ts.error);
            }
            dfa.transitions := dfa.transitions + ts.value;
          case NoSection =>
            return Err(SyntaxError(line, OutsideSection));
        }
        i := i + 1;
      }
      return Ok(dfa);
    }

    /** The transitions of one transition line, one per comma-separated symbol. */
    static method ParseTransition(line: string) returns (r: Result<set<Transition>, ParseError>)
      ensures r == TransitionLine(line)
    {
      var srcSep := IndexOf(line, ':');
      var dstSep := IndexOf(line, '>');
      if srcSep == -1 || dstSep == -1 {
        return Ok({});
      }
      if dstSep < srcSep {
        return Err(SyntaxError(line, ArrowBeforeColon));
      }
      r := ParseSymbolList(line, line[..srcSep], line[srcSep + 1..dstSep], line[dstSep + 1..]);
    }

    /** The comma-separated symbol list of a transition line, from `s` to `d`: one
        transition per symbol, and an error at the first symbol that is not one
        character long. */
    static method ParseSymbolList(line: string, s: string, list: string, d: string) returns (r: Result<set<Transition>, ParseError>)
      ensures r == SymbolTransitions(line, s, list, d)
    {
      var pieces := Split(list, ',');
      var result := {};
      var k := 0;
      while k < |pieces|
        invariant 0 <= k <= |pieces|
        invariant SingleChars(pieces[..k])
        invariant result == Expand(State(s), pieces[..k], State(d))
      {
        if |pieces[k]| != 1 {
          assert !SingleChars(pieces);
          return Err(SyntaxError(line, TransitionSymbolLength));
        }
        ExpandAdd(State(s), pieces[..k], pieces[k], State(d));
        result := result + {Transition(State(s), State(d), pieces[k][0])};
        assert pieces[..k + 1] == pieces[..k] + [pieces[k]];
        k := k + 1;
      }
      assert pieces[..k] == pieces;
      return Ok(result);
    }

    // -------------------------------------------------------------------------
    // Trimming

    /** The states reachable from `start`, collected with a work list: a state is
        visited once, and its successors not collected yet are collected and queued. */
    method ReachableStates(start: State) returns (reach: set<State>)
      ensures reach == Reachable(transitions, start)
    {
      ghost var bound := Endpoints(transitions) + {start};
      reach := {start};
      var todo := {start};
      assert IsPath(transitions, [], start, start);
      while todo != {}
        invariant todo <= reach <= bound && start in reach
        invariant forall x | x in reach :: Reaches(transitions, start, x)
        invariant forall t | t in transitions && t.src in reach - todo :: t.dst in reach
        decreases |bound - reach|, |todo|
      {
        var x :| x in todo;
        var sl := set t | t in transitions && t.src == x :: t.dst;
        var unseen := sl - reach;
        forall y | y in unseen ensures Reaches(transitions, start, y) {
          var t :| t in transitions && t.src == x && t.dst == y;
          var p :| IsPath(transitions, p, start, x);
          PathSnoc(transitions, p, start, x, t);
        }
        if unseen != {} {
          var y :| y in unseen;
          assert y in bound - reach && y !in bound - (reach + unseen);
          assert bound - (reach + unseen) < bound - reach;
        }
        reach := reach + unseen;
        todo := todo - {x} + unseen;
      }
      ReachableLeast(transitions, start, reach);
    }

    /** Dead-end removal: drop the states of `reach` that are not accepting and that no
        transition leaves, restrict the transitions field to the survivors, and repeat
        while a state was dropped. */
    method RemoveDeadEnds(reach: set<State>) returns (live: set<State>)
      modifies this`transitions
      ensures (live, transitions) == Prune(reach, old(transitions), accepting)
      decreases |reach|
    {
      var startSize := |reach|;
      live := set x | x in reach && !(x !in accepting && !(exists t | t in transitions :: t.src == x));
      assert live == Pass(reach, transitions, accepting);
      transitions := set t | t in transitions && t.src in live && t.dst in live;
      if startSize > |live| {
        live := RemoveDeadEnds(live);
      }
    }

    /** Trimming in place: the states become the live reachable states, the transitions
        the transitions between them and the alphabet their symbols. */
    method Optimize()
      modifies this
      ensures Value() == Optimized(old(Value()))
    {
      var reachableStates: set<State> := {};
      if initial.Some? {
        reachableStates := ReachableStates(initial.value);
      }
      reachableStates := RemoveDeadEnds(reachableStates);
      var relevantSymbols := set t | t in transitions :: t.symbol;
      states := reachableStates;
      alphabet := relevantSymbols;
    }

    // -------------------------------------------------------------------------
    // Printing

    /** The printed form: a fixed message for an invalid automaton, otherwise the five
        sections in order. `layout` records the order in which the sets were listed. */
    method PrintDFA() returns (text: string, ghost layout: Layout)
      ensures Automata.IsValid(Value()) ==> LayoutOf(Value(), layout)
      ensures text == PrintText(Value(), layout)
      ensures text == "Invalid DFA." <==> !Automata.IsValid(Value())
      ensures Automata.IsValid(Value()) && Printable(Value()) ==> Parse(text) == Ok(Value())
    {
      if !Automata.IsValid(Value()) {
        text, layout := "Invalid DFA.", Layout([], [], [], []);
        return;
      }
      var s1, o1 := ListStates(Parsing.States, states);
      var s2 := Keyword(Parsing.Initial) + "\n" + Label(initial) + "\n";
      SectionEmpty(Parsing.Initial);
      SectionSnoc(Parsing.Initial, [], Label(initial));
      assert [] + [Label(initial)] == [Label(initial)];
      var s3, o3 := ListStates(Parsing.Accepting, accepting);
      var s4, o4 := ListSymbols(alphabet);
      var s5, gs := PrintTransitions();
      text := s1 + s2 + s3 + s4 + s5;
      layout := Layout(o1, o3, o4, gs);
      if Printable(Value()) {
        RoundTrip(Value(), layout);
      }
    }

    /** A section of states: its header, then one line per state. */
    static method ListStates(st: Status, S: set<State>) returns (text: string, ghost order: seq<State>)
      ensures Enumerates(order, S) && text == Section(st, Ids(order))
    {
      text := Keyword(st) + "\n";
      order := [];
      SectionEmpty(st);
      EnumeratesNone(S);
      var rest := S;
      while rest != {}
        invariant rest <= S && Enumerates(order, S - rest)
        invariant text == Section(st, Ids(order))
        decreases |rest|
      {
        var s :| s in rest;
        IdsSnoc(order, s);
        SectionSnoc(st, Ids(order), s.id);
        EnumeratesSnoc(order, S - rest, s);
        assert S - (rest - {s}) == (S - rest) + {s};
        text := text + s.id + "\n";
        order := order + [s];
        rest := rest - {s};
      }
      assert S - rest == S;
    }

    /** The `#alphabet` section: its header, then one line per symbol. */
    static method ListSymbols(A: set<char>) returns (text: string, ghost order: seq<char>)
      ensures Enumerates(order, A) && text == Section(Parsing.Alphabet, CharStrings(order))
    {
      text := Keyword(Parsing.Alphabet) + "\n";
      order := [];
      SectionEmpty(Parsing.Alphabet);
      EnumeratesNone(A);
      var rest := A;
      while rest != {}
        invariant rest <= A && Enumerates(order, A - rest)
        invariant text == Section(Parsing.Alphabet, CharStrings(order))
        decreases |rest|
      {
        var c :| c in rest;
        CharStringsSnoc(order, c);
        SectionSnoc(Parsing.Alphabet, CharStrings(order), [c]);
        EnumeratesSnoc(order, A - rest, c);
        assert A - (rest - {c}) == (A - rest) + {c};
        text := text + [c] + "\n";
        order := order + [c];
        rest := rest - {c};
      }
      assert A - rest == A;
    }

    /** The `#transitions` section: one line per (source, destination) pair, grouped
        by source. */
    method PrintTransitions() returns (text: string, ghost groups: seq<Group>)
      ensures GroupsOf(transitions, groups) && text == Section(Parsing.Transitions, GroupLines(groups))
    {
      text := Keyword(Parsing.Transitions) + "\n";
      groups := [];
      SectionEmpty(Parsing.Transitions);
      var srcs := Sources(transitions);
      ghost var done := {};
      while srcs != {}
        invariant done + srcs == Sources(transitions) && done !! srcs
        invariant Grouped(transitions, groups, done)
        invariant text == Section(Parsing.Transitions, GroupLines(groups))
        decreases |srcs|
      {
        var src :| src in srcs;
        var lines, gs := SourceLines(src);
        SourceStep(transitions, groups, done, src, gs, text, lines);
        text := text + lines;
        groups := groups + gs;
        srcs, done := srcs - {src}, done + {src};
      }
      GroupedAll(transitions, groups);
    }

    /** The lines of the transitions leaving `src`: one per destination. */
    method SourceLines(src: State) returns (text: string, ghost gs: seq<Group>)
      ensures GroupedFrom(transitions, src, gs, Successors(transitions, src)) && text == Unlines(GroupLines(gs))
    {
      var dsts := Enumerate(Successors(transitions, src));
      text := "";
      gs := [];
      for k := 0 to |dsts|
        invariant |gs| == k
        invariant forall i | 0 <= i < k :: gs[i].src == src && gs[i].dst == dsts[i] && Lists(transitions, gs[i])
        invariant text == Unlines(GroupLines(gs))
      {
        var line, g := PrintGroup(src, dsts[k]);
        LinesSnoc(gs, g);
        text := text + line + "\n";
        gs := gs + [g];
      }
      GroupedInOrder(transitions, src, gs, dsts);
    }

    /** The elements of `S`, each once, in the order a hash set hands them out. */
    static method Enumerate<X>(S: set<X>) returns (xs: seq<X>)
      ensures Enumerates(xs, S)
    {
      xs := [];
      var rest := S;
      EnumeratesNone(S);
      while rest != {}
        invariant rest <= S && Enumerates(xs, S - rest)
        decreases |rest|
      {
        var x :| x in rest;
        EnumeratesSnoc(xs, S - rest, x);
        assert S - (rest - {x}) == (S - rest) + {x};
        xs := xs + [x];
        rest := rest - {x};
      }
      assert S - rest == S;
    }

    /** The line of the transitions from `src` to `dst`. */
    method PrintGroup(src: State, dst: State) returns (line: string, ghost g: Group)
      requires dst in Successors(transitions, src)
      ensures g.src == src && g.dst == dst && Lists(transitions, g) && line == GroupLine(g)
    {
      var list, order := SymbolList(SymbolsBetween(transitions, src, dst));
      g := Group(src, dst, order);
      var t0 :| t0 in transitions && t0.src == src && t0.dst == dst;
      assert t0.symbol in SymbolsBetween(transitions, src, dst);
      line := src.id + ":" + list + ">" + dst.id;
    }

    /** The symbols of one line, separated by commas: after each symbol a comma follows
        when more symbols remain. */
    static method SymbolList(syms: set<char>) returns (text: string, ghost order: seq<char>)
      ensures Enumerates(order, syms) && text == Join(CharStrings(order), ',')
      ensures syms != {} ==> order != []
    {
      var list := Enumerate(syms);
      text := "";
      for i := 0 to |list|
        invariant text == Pending(list[..i], i < |list|)
      {
        PendingStep(list[..i], list[i], i + 1 < |list|);
        assert list[..i + 1] == list[..i] + [list[i]];
        text := text + [list[i]];
        if i + 1 < |list| {
          text := text + ",";
        }
      }
      assert list[..|list|] == list;
      order := list;
    }
  }

  // ---------------------------------------------------------------------------
  // Set algebra behind the loops

  lemma RowAdd(p: State, E: set<State>, q: State)
    ensures Row(p, E + {q}) == Row(p, E) + {Pair(p, q)}
  {
  }

  lemma PairStatesAdd(D: set<State>, p: State, S2: set<State>)
    ensures PairStates(D + {p}, S2) == PairStates(D, S2) + Row(p, S2)
  {
  }

  /** The pairs of `t1` with the transitions of `E` on its symbol. */
  function SyncRow(t1: Transition, E: set<Transition>): set<Transition>
  {
    set t2 | t2 in E && t2.symbol == t1.symbol :: Transition(Pair(t1.src, t2.src), Pair(t1.dst, t2.dst), t1.symbol)
  }

  lemma SyncRowAdd(t1: Transition, E: set<Transition>, t2: Transition)
    ensures SyncRow(t1, E + {t2}) ==
      SyncRow(t1, E) + (if t1.symbol == t2.symbol then {Transition(Pair(t1.src, t2.src), Pair(t1.dst, t2.dst), t1.symbol)} else {})
  {
  }

  lemma PairTransitionsAdd(D: set<Transition>, t1: Transition, T2: set<Transition>)
    ensures PairTransitions(D + {t1}, T2) == PairTransitions(D, T2) + SyncRow(t1, T2)
  {
  }

  lemma ExpandAdd(src: State, pieces: seq<string>, p: string, dst: State)
    requires |p| == 1
    ensures Expand(src, pieces + [p], dst) == Expand(src, pieces, dst) + {Transition(src, dst, p[0])}
  {
  }

  // ---------------------------------------------------------------------------
  // What the printing loops have produced so far

  /** The destinations of the transitions of `T` that leave `src`. */
  function Successors(T: set<Transition>, src: State): set<State>
  {
    set t | t in T && t.src == src :: t.dst
  }

  /** `g` lists, at least once, exactly the symbols of the transitions of `T` from its
      source to its destination. */
  ghost predicate Lists(T: set<Transition>, g: Group)
  {
    g.symbols != [] && Enumerates(g.symbols, SymbolsBetween(T, g.src, g.dst))
  }

  /** The (source, destination) pairs the groups `gs` stand for. */
  ghost function Pairs(gs: seq<Group>): set<(State, State)>
  {
    set g | g in gs :: (g.src, g.dst)
  }

  /** The (source, destination) pairs of the transitions of `T` that leave `D`. */
  ghost function Links(T: set<Transition>, D: set<State>): set<(State, State)>
  {
    set t | t in T && t.src in D :: (t.src, t.dst)
  }

  /** The groups `gs` are the groups of the transitions of `T` leaving the states of
      `D`: one group per (source, destination) pair, each listing that pair's symbols. */
  ghost predicate Grouped(T: set<Transition>, gs: seq<Group>, D: set<State>)
  {
    (forall i, j | 0 <= i < j < |gs| :: gs[i].src != gs[j].src || gs[i].dst != gs[j].dst)
    && (forall i | 0 <= i < |gs| :: gs[i].src in D && Lists(T, gs[i]))
    && Pairs(gs) == Links(T, D)
  }

  /** The groups `gs` are the groups of the transitions of `T` from `src` to the
      destinations in `D`. */
  ghost predicate GroupedFrom(T: set<Transition>, src: State, gs: seq<Group>, D: set<State>)
  {
    (forall i | 0 <= i < |gs| :: gs[i].src == src)
    && (forall i, j | 0 <= i < j < |gs| :: gs[i].dst != gs[j].dst)
    && (forall i | 0 <= i < |gs| :: Lists(T, gs[i]))
    && Dsts(gs) == D
  }

  /** The destinations of the groups `gs`. */
  ghost function Dsts(gs: seq<Group>): set<State>
  {
    set g | g in gs :: g.dst
  }

  lemma GroupedAdd(T: set<Transition>, gs: seq<Group>, D: set<State>, src: State, more: seq<Group>)
    requires Grouped(T, gs, D) && src !in D && GroupedFrom(T, src, more, Successors(T, src))
    ensures Grouped(T, gs + more, D + {src})
  {
    var all := gs + more;
    forall i, j | 0 <= i < j < |all| ensures all[i].src != all[j].src || all[i].dst != all[j].dst {
      if j < |gs| {
      } else if i < |gs| {
        assert all[i].src in D && all[j].src == src;
      } else {
        assert all[i] == more[i - |gs|] && all[j] == more[j - |gs|];
      }
    }
    assert Pairs(all) == Pairs(gs) + Pairs(more);
    FromLinks(T, src, more);
    assert Links(T, D + {src}) == Links(T, D) + Links(T, {src});
  }

  /** The lines of one more source extend the transitions section. */
  lemma SourceStep(T: set<Transition>, gs: seq<Group>, D: set<State>, src: State, more: seq<Group>, text: string, lines: string)
    requires Grouped(T, gs, D) && src !in D && GroupedFrom(T, src, more, Successors(T, src))
    requires text == Section(Parsing.Transitions, GroupLines(gs)) && lines == Unlines(GroupLines(more))
    ensures Grouped(T, gs + more, D + {src})
    ensures text + lines == Section(Parsing.Transitions, GroupLines(gs + more))
  {
    GroupedAdd(T, gs, D, src, more);
    GroupLinesAppend(gs, more);
    SectionAppend(Parsing.Transitions, GroupLines(gs), GroupLines(more));
  }

  lemma FromLinks(T: set<Transition>, src: State, gs: seq<Group>)
    requires GroupedFrom(T, src, gs, Successors(T, src))
    ensures Pairs(gs) == Links(T, {src})
  {
    forall p | p in Pairs(gs) ensures p in Links(T, {src}) {
      var g :| g in gs && p == (g.src, g.dst);
      var i :| 0 <= i < |gs| && gs[i] == g;
      assert g.dst in Successors(T, src);
      var t :| t in T && t.src == src && t.dst == g.dst;
    }
    forall p | p in Links(T, {src}) ensures p in Pairs(gs) {
      var t :| t in T && t.src in {src} && p == (t.src, t.dst);
      assert t.dst in Successors(T, src);
      var g :| g in gs && g.dst == t.dst;
      var i :| 0 <= i < |gs| && gs[i] == g;
    }
  }

  lemma GroupedAll(T: set<Transition>, gs: seq<Group>)
    requires Grouped(T, gs, Sources(T))
    ensures GroupsOf(T, gs)
  {
    forall i | 0 <= i < |gs| ensures gs[i].symbols != [] && Enumerates(gs[i].symbols, SymbolsBetween(T, gs[i].src, gs[i].dst)) {
      assert Lists(T, gs[i]);
    }
    forall t | t in T ensures exists i :: 0 <= i < |gs| && gs[i].src == t.src && gs[i].dst == t.dst {
      assert (t.src, t.dst) in Links(T, Sources(T));
      var g :| g in gs && (g.src, g.dst) == (t.src, t.dst);
      var i :| 0 <= i < |gs| && gs[i] == g;
    }
  }

  lemma {:induction false} GroupLinesAppend(a: seq<Group>, b: seq<Group>)
    ensures GroupLines(a + b) == GroupLines(a) + GroupLines(b)
  {
    if a == [] {
      assert a + b == b;
    } else {
      assert (a + b)[1..] == a[1..] + b;
      GroupLinesAppend(a[1..], b);
    }
  }

  lemma LinesSnoc(gs: seq<Group>, g: Group)
    ensures Unlines(GroupLines(gs + [g])) == Unlines(GroupLines(gs)) + GroupLine(g) + "\n"
  {
    GroupLinesAppend(gs, [g]);
    assert GroupLines([g]) == [GroupLine(g)];
    UnlinesSnoc(GroupLines(gs), GroupLine(g));
  }

  lemma IdsSnoc(ss: seq<State>, s: State)
    ensures Ids(ss + [s]) == Ids(ss) + [s.id]
  {
    assert |Ids(ss + [s])| == |Ids(ss) + [s.id]|;
    forall k | 0 <= k < |ss| + 1 ensures Ids(ss + [s])[k] == (Ids(ss) + [s.id])[k] {
      if k < |ss| {
        assert (ss + [s])[k] == ss[k];
      }
    }
  }

  lemma CharStringsSnoc(cs: seq<char>, c: char)
    ensures CharStrings(cs + [c]) == CharStrings(cs) + [[c]]
  {
    assert |CharStrings(cs + [c])| == |CharStrings(cs) + [[c]]|;
    forall k | 0 <= k < |cs| + 1 ensures CharStrings(cs + [c])[k] == (CharStrings(cs) + [[c]])[k] {
      if k < |cs| {
        assert (cs + [c])[k] == cs[k];
      }
    }
  }

  lemma UnlinesSnoc(ls: seq<string>, x: string)
    ensures Unlines(ls + [x]) == Unlines(ls) + x + "\n"
  {
    UnlinesAppend(ls, [x]);
    assert Unlines([x]) == x + "\n" + Unlines([]);
  }

  lemma GroupedInOrder(T: set<Transition>, src: State, gs: seq<Group>, dsts: seq<State>)
    requires Enumerates(dsts, Successors(T, src)) && |gs| == |dsts|
    requires forall i | 0 <= i < |gs| :: gs[i].src == src && gs[i].dst == dsts[i] && Lists(T, gs[i])
    ensures GroupedFrom(T, src, gs, Successors(T, src))
  {
    assert Dsts(gs) == (set x | x in dsts) by {
      forall x | x in dsts ensures x in Dsts(gs) {
        var i :| 0 <= i < |dsts| && dsts[i] == x;
        assert gs[i] in gs;
      }
    }
  }

  lemma SectionEmpty(st: Status)
    ensures Section(st, []) == Keyword(st) + "\n"
  {
    assert [Keyword(st)] + [] == [Keyword(st)];
    UnlinesSnoc([], Keyword(st));
  }

  lemma SectionSnoc(st: Status, body: seq<string>, line: string)
    ensures Section(st, body + [line]) == Section(st, body) + line + "\n"
  {
    assert [Keyword(st)] + (body + [line]) == ([Keyword(st)] + body) + [line];
    UnlinesSnoc([Keyword(st)] + body, line);
  }

  lemma SectionAppend(st: Status, body: seq<string>, more: seq<string>)
    ensures Section(st, body + more) == Section(st, body) + Unlines(more)
  {
    assert [Keyword(st)] + (body + more) == ([Keyword(st)] + body) + more;
    UnlinesAppend([Keyword(st)] + body, more);
  }

  lemma EnumeratesNone<X>(S: set<X>)
    ensures Enumerates([], S - S)
  {
    assert S - S == {};
  }

  lemma EnumeratesSnoc<X>(xs: seq<X>, S: set<X>, x: X)
    requires Enumerates(xs, S) && x !in S
    ensures Enumerates(xs + [x], S + {x})
  {
    assert (set y | y in xs + [x]) == (set y | y in xs) + {x};
  }

  /** The symbols listed so far, with the comma that follows the last one when more
      symbols remain. */
  function Pending(order: seq<char>, more: bool): string
  {
    Join(CharStrings(order), ',') + (if order != [] && more then "," else "")
  }

  lemma PendingStep(order: seq<char>, c: char, more: bool)
    ensures Pending(order, true) + [c] + (if more then "," else "") == Pending(order + [c], more)
  {
    SymbolStep(order, c);
  }

  /** One more symbol in a comma-separated list. */
  lemma SymbolStep(order: seq<char>, c: char)
    ensures Join(CharStrings(order + [c]), ',') == if order == [] then [c] else Join(CharStrings(order), ',') + "," + [c]
  {
    CharStringsSnoc(order, c);
    if order != [] {
      JoinSnoc(CharStrings(order), [c], ',');
    } else {
      assert CharStrings(order + [c]) == [[c]];
    }
  }
}
