/** The text format written back out: five sections in the order states, initial,
    accepting, alphabet, transitions, one line per element, and one transition line
    `src:x1,...,xk>dst` per (source, destination) pair listing that pair's symbols.
    The order of the lines within a section is whatever order the sets are enumerated
    in; a `Layout` records that order, and everything below holds for every layout. */
module Printing {
  import opened Text
  import opened Automata
  import opened Parsing

  /** One transition line: a source, a destination and the symbols of the transitions
      between them, in output order. */
  datatype Group = Group(src: State, dst: State, symbols: seq<char>)

  /** The output order of every section. */
  datatype Layout = Layout(states: seq<State>, accepting: seq<State>, alphabet: seq<char>, groups: seq<Group>)

  /** `xs` lists every element of `S` exactly once. */
  predicate Enumerates<X>(xs: seq<X>, S: set<X>)
  {
    (forall i, j | 0 <= i < j < |xs| :: xs[i] != xs[j]) && (set x | x in xs) == S
  }

  /** The symbols of the transitions of `T` from `src` to `dst`. */
  function SymbolsBetween(T: set<Transition>, src: State, dst: State): set<char>
  {
    set t | t in T && t.src == src && t.dst == dst :: t.symbol
  }

  /** `gs` has one group per (source, destination) pair of `T`, listing exactly that
      pair's symbols. */
  predicate GroupsOf(T: set<Transition>, gs: seq<Group>)
  {
    (forall i, j | 0 <= i < j < |gs| :: gs[i].src != gs[j].src || gs[i].dst != gs[j].dst)
    && ListsAll(T, gs)
    && (forall t | t in T :: exists i :: 0 <= i < |gs| && gs[i].src == t.src && gs[i].dst == t.dst)
  }

  /** Every group lists exactly the symbols of its pair, and at least one. */
  predicate ListsAll(T: set<Transition>, gs: seq<Group>)
  {
    forall i | 0 <= i < |gs| :: gs[i].symbols != [] && Enumerates(gs[i].symbols, SymbolsBetween(T, gs[i].src, gs[i].dst))
  }

  /** `l` is an output order of `a`. */
  predicate LayoutOf(a: Automaton, l: Layout)
  {
    Enumerates(l.states, a.states) && Enumerates(l.accepting, a.accepting)
    && Enumerates(l.alphabet, a.alphabet) && GroupsOf(a.transitions, l.groups)
  }

  /** The labels of the states, in order. */
  function Ids(ss: seq<State>): (ls: seq<string>)
    ensures |ls| == |ss|
    ensures forall k | 0 <= k < |ss| :: ls[k] == ss[k].id
  {
    if ss == [] then [] else [ss[0].id] + Ids(ss[1..])
  }

  /** The line of one group: its symbols separated by commas. */
  function GroupLine(g: Group): string
  {
    g.src.id + ":" + Join(CharStrings(g.symbols), ',') + ">" + g.dst.id
  }

  function GroupLines(gs: seq<Group>): (ls: seq<string>)
    ensures |ls| == |gs|
    ensures forall k | 0 <= k < |gs| :: ls[k] == GroupLine(gs[k])
  {
    if gs == [] then [] else [GroupLine(gs[0])] + GroupLines(gs[1..])
  }

  /** A section: its header line followed by its body lines. */
  function Section(st: Status, body: seq<string>): string
  {
    Unlines([Keyword(st)] + body)
  }

  /** The five sections of `a` in the order `l`. */
  function Render(a: Automaton, l: Layout): (text: string)
    ensures |text| > 0 && text[0] == '#'
  {
    Section(States, Ids(l.states)) + Section(Initial, [Label(a.initial)]) + Section(Accepting, Ids(l.accepting))
    + Section(Alphabet, CharStrings(l.alphabet)) + Section(Transitions, GroupLines(l.groups))
  }

  /** The printed form: the sections of a valid automaton, a fixed message otherwise. */
  function PrintText(a: Automaton, l: Layout): (text: string)
    ensures text == "Invalid DFA." <==> !IsValid(a)
  {
    if !IsValid(a) then "Invalid DFA." else Render(a, l)
  }

  // ---------------------------------------------------------------------------
  // Reading the printed text back

  /** A label that survives printing: it has no line break (`\n` or `\r`), no `:` or
      `>` and does not start with `#`. */
  predicate GoodLabel(s: State)
  {
    '\n' !in s.id && '\r' !in s.id && ':' !in s.id && '>' !in s.id && !IsHeader(s.id)
  }

  /** A symbol that survives printing. */
  predicate GoodSymbol(c: char)
  {
    c != '\n' && c != '\r' && c != ',' && c != '>' && c != '#'
  }

  /** A transition that survives printing. */
  predicate GoodTransition(t: Transition)
  {
    GoodLabel(t.src) && GoodLabel(t.dst) && GoodSymbol(t.symbol)
  }

  predicate Printable(a: Automaton)
  {
    (forall s | s in a.states :: GoodLabel(s))
    && (forall c | c in a.alphabet :: GoodSymbol(c))
    && (forall t | t in a.transitions :: GoodTransition(t))
  }

  /** The lines listing good labels are body lines, and name exactly the listed states. */
  lemma IdsBody(ss: seq<State>, S: set<State>)
    requires (set x | x in ss) == S && forall s | s in S :: GoodLabel(s)
    ensures forall l | l in Ids(ss) :: '\n' !in l && !IsHeader(l)
    ensures LineStates(Ids(ss)) == S
  {
    var ls := Ids(ss);
    forall l | l in ls ensures '\n' !in l && !IsHeader(l) {
      var k :| 0 <= k < |ls| && ls[k] == l;
      assert ss[k] in S;
    }
    forall s | s in S ensures s in LineStates(ls) {
      var k :| 0 <= k < |ss| && ss[k] == s;
      assert ls[k] in ls;
    }
  }

  /** The lines listing good symbols are body lines, and give back the listed symbols. */
  lemma SymbolsBody(cs: seq<char>, C: set<char>)
    requires (set x | x in cs) == C && forall c | c in C :: GoodSymbol(c)
    ensures forall l | l in CharStrings(cs) :: '\n' !in l && !IsHeader(l) && |l| == 1
    ensures LineSymbols(CharStrings(cs)) == C
  {
    var ls := CharStrings(cs);
    forall l | l in ls ensures '\n' !in l && !IsHeader(l) && |l| == 1 {
      var k :| 0 <= k < |ls| && ls[k] == l;
      assert cs[k] in C;
    }
    forall c | c in C ensures c in LineSymbols(ls) {
      var k :| 0 <= k < |cs| && cs[k] == c;
      assert ls[k] in ls;
    }
  }

  /** The line of a group of good labels and symbols is a body line that reads back as
      the group's transitions. */
  lemma GroupLineBack(g: Group)
    requires GoodLabel(g.src) && GoodLabel(g.dst) && g.symbols != []
    requires forall c | c in g.symbols :: GoodSymbol(c)
    ensures '\n' !in GroupLine(g) && !IsHeader(GroupLine(g))
    ensures TransitionLine(GroupLine(g)) == Ok(set x | x in g.symbols :: Transition(g.src, g.dst, x))
  {
    GroupLineClean(g);
    TransitionLineOfSymbols(g.src.id, g.symbols, g.dst.id);
  }

  /** The line of a group of good labels and symbols has no line break and is no
      header. */
  lemma GroupLineClean(g: Group)
    requires GoodLabel(g.src) && GoodLabel(g.dst)
    requires forall c | c in g.symbols :: GoodSymbol(c)
    ensures '\n' !in GroupLine(g) && !IsHeader(GroupLine(g))
  {
    var j := Join(CharStrings(g.symbols), ',');
    forall x | x in j ensures x != '\n' {
      SymbolListChars(g.symbols, x);
    }
    assert GroupLine(g) == g.src.id + (":" + j + ">" + g.dst.id);
    LabelledLine(g.src.id, ":" + j + ">" + g.dst.id);
  }

  /** A line that starts with a label that is not a header, followed by `:`, is not a
      header either. */
  lemma LabelledLine(id: string, rest: string)
    requires !IsHeader(id) && |rest| > 0 && rest[0] == ':'
    ensures !IsHeader(id + rest)
  {
    if id == [] {
      assert id + rest == rest;
    } else {
      assert (id + rest)[0] == id[0];
    }
  }

  /** The transition lines of a grouping of printable transitions read back as exactly
      those transitions. */
  lemma GroupsBody(T: set<Transition>, gs: seq<Group>)
    requires GroupsOf(T, gs)
    requires forall t | t in T :: GoodTransition(t)
    ensures forall l | l in GroupLines(gs) :: '\n' !in l && !IsHeader(l) && TransitionLine(l).Ok?
    ensures LineTransitions(GroupLines(gs)) == T
  {
    var ls := GroupLines(gs);
    forall l | l in ls ensures '\n' !in l && !IsHeader(l) && TransitionLine(l).Ok? {
      var k :| 0 <= k < |ls| && ls[k] == l;
      GroupBack(T, gs[k]);
    }
    GroupsSound(T, gs);
    GroupsComplete(T, gs);
  }

  /** Every transition read back from the lines of a grouping is a transition of `T`. */
  lemma GroupsSound(T: set<Transition>, gs: seq<Group>)
    requires ListsAll(T, gs)
    requires forall t | t in T :: GoodTransition(t)
    ensures LineTransitions(GroupLines(gs)) <= T
  {
    var ls := GroupLines(gs);
    forall k | 0 <= k < |ls| ensures TransitionLine(ls[k]).Ok? ==> TransitionLine(ls[k]).value <= T {
      GroupWithin(T, gs, k);
    }
    LinesWithin(ls, T);
  }

  /** Lines that each read back only transitions of `T` read back only transitions
      of `T` together. */
  lemma LinesWithin(ls: seq<string>, T: set<Transition>)
    requires forall k | 0 <= k < |ls| :: TransitionLine(ls[k]).Ok? ==> TransitionLine(ls[k]).value <= T
    ensures LineTransitions(ls) <= T
  {
    forall t | t in LineTransitions(ls) ensures t in T {
      var l :| l in ls && TransitionLine(l).Ok? && t in TransitionLine(l).value;
      var k :| 0 <= k < |ls| && ls[k] == l;
    }
  }

  /** The transitions read back from the line of one group are transitions of `T`. */
  lemma GroupWithin(T: set<Transition>, gs: seq<Group>, k: int)
    requires ListsAll(T, gs) && 0 <= k < |gs|
    requires forall t | t in T :: GoodTransition(t)
    ensures TransitionLine(GroupLine(gs[k])).Ok? ==> TransitionLine(GroupLine(gs[k])).value <= T
  {
    var g := gs[k];
    forall t | TransitionLine(GroupLine(g)).Ok? && t in TransitionLine(GroupLine(g)).value ensures t in T {
      GroupMember(T, g, t);
    }
  }

  /** A transition read back from the line of one group is a transition of `T`. */
  lemma GroupMember(T: set<Transition>, g: Group, t: Transition)
    requires g.symbols != [] && Enumerates(g.symbols, SymbolsBetween(T, g.src, g.dst))
    requires forall t | t in T :: GoodTransition(t)
    requires TransitionLine(GroupLine(g)).Ok? && t in TransitionLine(GroupLine(g)).value
    ensures t in T
  {
    GroupBack(T, g);
    var x :| x in g.symbols && t == Transition(g.src, g.dst, x);
    assert x in SymbolsBetween(T, g.src, g.dst);
    var u :| u in T && u.src == g.src && u.dst == g.dst && u.symbol == x;
    assert u == t;
  }

  /** Every transition of `T` is read back from the lines of a grouping. */
  lemma GroupsComplete(T: set<Transition>, gs: seq<Group>)
    requires GroupsOf(T, gs)
    requires forall t | t in T :: GoodTransition(t)
    ensures T <= LineTransitions(GroupLines(gs))
  {
    var ls := GroupLines(gs);
    forall t | t in T ensures t in LineTransitions(ls) {
      var k :| 0 <= k < |gs| && gs[k].src == t.src && gs[k].dst == t.dst;
      var g := gs[k];
      GroupBack(T, g);
      assert t.symbol in SymbolsBetween(T, g.src, g.dst);
      assert t.symbol in g.symbols;
      assert t in TransitionLine(ls[k]).value;
      LineTransitionsMember(ls, k, t);
    }
  }

  lemma LineTransitionsMember(body: seq<string>, k: int, t: Transition)
    requires 0 <= k < |body| && TransitionLine(body[k]).Ok? && t in TransitionLine(body[k]).value
    ensures t in LineTransitions(body)
  {
    assert body[k] in body;
  }

  /** A group of a grouping of printable transitions reads back as its transitions. */
  lemma GroupBack(T: set<Transition>, g: Group)
    requires g.symbols != [] && Enumerates(g.symbols, SymbolsBetween(T, g.src, g.dst))
    requires forall t | t in T :: GoodTransition(t)
    ensures '\n' !in GroupLine(g) && !IsHeader(GroupLine(g))
    ensures TransitionLine(GroupLine(g)) == Ok(set x | x in g.symbols :: Transition(g.src, g.dst, x))
  {
    assert g.symbols[0] in SymbolsBetween(T, g.src, g.dst);
    var t0 :| t0 in T && t0.src == g.src && t0.dst == g.dst && t0.symbol == g.symbols[0];
    forall c | c in g.symbols ensures GoodSymbol(c) {
      assert c in SymbolsBetween(T, g.src, g.dst);
    }
    GroupLineBack(g);
  }

  /** A header followed by a body that its section accepts: the parse goes on after the
      body in that section. */
  lemma SectionStep(st: Status, body: seq<string>, rest: seq<string>, prev: Status, acc: Automaton, next: Automaton)
    requires st != NoSection && forall l | l in body :: !IsHeader(l)
    requires AddLines(st, body, acc) == Ok(next)
    ensures ParseLines([Keyword(st)] + body + rest, prev, acc) == ParseLines(rest, st, next)
  {
    SetStatusKeyword(st);
    ParseSection(Keyword(st), body, rest, prev, acc);
  }

  /** The printed lines, section after section. */
  function PrintedLines(a: Automaton, l: Layout): seq<string>
  {
    ([Keyword(States)] + Ids(l.states)) + (([Keyword(Initial)] + [Label(a.initial)]) + (([Keyword(Accepting)] + Ids(l.accepting))
    + (([Keyword(Alphabet)] + CharStrings(l.alphabet)) + ([Keyword(Transitions)] + GroupLines(l.groups)))))
  }

  lemma RenderLines(a: Automaton, l: Layout)
    ensures Render(a, l) == Unlines(PrintedLines(a, l))
  {
    UnlinesFive([Keyword(States)] + Ids(l.states), [Keyword(Initial)] + [Label(a.initial)],
                [Keyword(Accepting)] + Ids(l.accepting), [Keyword(Alphabet)] + CharStrings(l.alphabet),
                [Keyword(Transitions)] + GroupLines(l.groups));
  }

  lemma UnlinesFive(s1: seq<string>, s2: seq<string>, s3: seq<string>, s4: seq<string>, s5: seq<string>)
    ensures Unlines(s1 + (s2 + (s3 + (s4 + s5)))) == Unlines(s1) + Unlines(s2) + Unlines(s3) + Unlines(s4) + Unlines(s5)
  {
    UnlinesAppend(s4, s5);
    UnlinesAppend(s3, s4 + s5);
    UnlinesAppend(s2, s3 + (s4 + s5));
    UnlinesAppend(s1, s2 + (s3 + (s4 + s5)));
    Regroup(Unlines(s1), Unlines(s2), Unlines(s3), Unlines(s4), Unlines(s5));
  }

  lemma Regroup(a: string, b: string, c: string, d: string, e: string)
    ensures a + (b + (c + (d + e))) == a + b + c + d + e
  {
  }

  /** Reading back the printed text of a valid, printable automaton gives it back, for
      every output order. */
  lemma RoundTrip(a: Automaton, l: Layout)
    requires IsValid(a) && Printable(a) && LayoutOf(a, l)
    ensures Parse(PrintText(a, l)) == Ok(a)
  {
    RenderLines(a, l);
    PrintedLinesOk(a, l);
    LinesOfUnlines(PrintedLines(a, l));
    ParsePrinted(a, l);
  }

  /** The printed lines of a printable automaton hold no line break. */
  lemma PrintedLinesOk(a: Automaton, l: Layout)
    requires IsValid(a) && Printable(a) && LayoutOf(a, l)
    ensures forall x | x in PrintedLines(a, l) :: '\n' !in x
  {
    IdsBody(l.states, a.states);
    IdsBody(l.accepting, a.accepting);
    SymbolsBody(l.alphabet, a.alphabet);
    GroupsBody(a.transitions, l.groups);
    assert GoodLabel(a.initial.value);
    PrintedLinesClean(a, l);
  }

  /** The printed lines of a printable automaton parse back to it. */
  lemma ParsePrinted(a: Automaton, l: Layout)
    requires IsValid(a) && Printable(a) && LayoutOf(a, l)
    ensures ParseLines(PrintedLines(a, l), NoSection, Empty) == Ok(a)
  {
    var b1, b3, b4, b5 := Ids(l.states), Ids(l.accepting), CharStrings(l.alphabet), GroupLines(l.groups);
    IdsBody(l.states, a.states);
    IdsBody(l.accepting, a.accepting);
    SymbolsBody(l.alphabet, a.alphabet);
    GroupsBody(a.transitions, l.groups);
    assert GoodLabel(a.initial.value);
    AlphabetSection(b4, Empty);
    assert Empty.alphabet + a.alphabet == a.alphabet;
    TransitionsSection(b5, Empty);
    assert Empty.transitions + a.transitions == a.transitions;
    BodiesBack(a, b1, b3, b4, b5);
  }

  /** No printed line holds a line break. */
  lemma PrintedLinesClean(a: Automaton, l: Layout)
    requires forall x | x in Ids(l.states) :: '\n' !in x
    requires forall x | x in Ids(l.accepting) :: '\n' !in x
    requires forall x | x in CharStrings(l.alphabet) :: '\n' !in x
    requires forall x | x in GroupLines(l.groups) :: '\n' !in x
    requires '\n' !in Label(a.initial)
    ensures forall x | x in PrintedLines(a, l) :: '\n' !in x
  {
  }

  /** The parse of the five printed sections, one after the other. */
  lemma BodiesBack(a: Automaton, b1: seq<string>, b3: seq<string>, b4: seq<string>, b5: seq<string>)
    requires IsValid(a) && !IsHeader(a.initial.value.id)
    requires forall x | x in b1 :: !IsHeader(x)
    requires forall x | x in b3 :: !IsHeader(x)
    requires forall x | x in b4 :: !IsHeader(x)
    requires forall x | x in b5 :: !IsHeader(x)
    requires LineStates(b1) == a.states && LineStates(b3) == a.accepting
    requires AddLines(Alphabet, b4, Empty) == Ok(Empty.(alphabet := a.alphabet))
    requires AddLines(Transitions, b5, Empty) == Ok(Empty.(transitions := a.transitions))
    ensures ParseLines(([Keyword(States)] + b1) + (([Keyword(Initial)] + [Label(a.initial)]) + (([Keyword(Accepting)] + b3)
                       + (([Keyword(Alphabet)] + b4) + ([Keyword(Transitions)] + b5)))), NoSection, Empty) == Ok(a)
  {
    var s1, s2, s3, s4, s5 := [Keyword(States)] + b1, [Keyword(Initial)] + [Label(a.initial)], [Keyword(Accepting)] + b3,
                              [Keyword(Alphabet)] + b4, [Keyword(Transitions)] + b5;
    var acc1 := Empty.(states := a.states);
    var acc2 := acc1.(initial := a.initial);
    var acc3 := acc2.(accepting := a.accepting);
    var acc4 := acc3.(alphabet := a.alphabet);
    StatesStep(b1, s2 + (s3 + (s4 + s5)), a.states);
    InitialStep(a.initial.value, s3 + (s4 + s5), acc1);
    AcceptingStep(b3, s4 + s5, acc2, a.accepting);
    AlphabetStep(b4, s5, acc3, a.alphabet);
    TransitionsStep(b5, acc4, a.transitions);
    assert acc4.(transitions := a.transitions) == a;
  }

  lemma StatesStep(b1: seq<string>, rest: seq<string>, S: set<State>)
    requires forall x | x in b1 :: !IsHeader(x)
    requires LineStates(b1) == S
    ensures ParseLines(([Keyword(States)] + b1) + rest, NoSection, Empty) == ParseLines(rest, States, Empty.(states := S))
  {
    StatesSection(b1, Empty);
    assert Empty.states + S == S;
    SectionStep(States, b1, rest, NoSection, Empty, Empty.(states := S));
  }

  lemma InitialStep(i: State, rest: seq<string>, acc: Automaton)
    requires !IsHeader(i.id)
    ensures ParseLines(([Keyword(Initial)] + [i.id]) + rest, States, acc) == ParseLines(rest, Initial, acc.(initial := Some(i)))
  {
    InitialSection([i.id], acc);
    SectionStep(Initial, [i.id], rest, States, acc, acc.(initial := Some(i)));
  }

  lemma AcceptingStep(b3: seq<string>, rest: seq<string>, acc: Automaton, F: set<State>)
    requires acc.accepting == {}
    requires forall x | x in b3 :: !IsHeader(x)
    requires LineStates(b3) == F
    ensures ParseLines(([Keyword(Accepting)] + b3) + rest, Initial, acc) == ParseLines(rest, Accepting, acc.(accepting := F))
  {
    AcceptingSection(b3, acc);
    assert acc.accepting + F == F;
    SectionStep(Accepting, b3, rest, Initial, acc, acc.(accepting := F));
  }

  lemma AlphabetStep(b4: seq<string>, rest: seq<string>, acc: Automaton, A: set<char>)
    requires acc.alphabet == {}
    requires forall x | x in b4 :: !IsHeader(x)
    requires AddLines(Alphabet, b4, Empty) == Ok(Empty.(alphabet := A))
    ensures ParseLines(([Keyword(Alphabet)] + b4) + rest, Accepting, acc) == ParseLines(rest, Alphabet, acc.(alphabet := A))
  {
    AlphabetSection(b4, Empty);
    AlphabetSection(b4, acc);
    assert LineSymbols(b4) == A;
    SectionStep(Alphabet, b4, rest, Accepting, acc, acc.(alphabet := A));
  }

  lemma TransitionsStep(b5: seq<string>, acc: Automaton, T: set<Transition>)
    requires acc.transitions == {}
    requires forall x | x in b5 :: !IsHeader(x)
    requires AddLines(Transitions, b5, Empty) == Ok(Empty.(transitions := T))
    ensures ParseLines([Keyword(Transitions)] + b5, Alphabet, acc) == Ok(acc.(transitions := T))
  {
    TransitionsSection(b5, Empty);
    TransitionsSection(b5, acc);
    assert LineTransitions(b5) == T;
    assert [Keyword(Transitions)] + b5 == [Keyword(Transitions)] + b5 + [];
    SectionStep(Transitions, b5, [], Alphabet, acc, acc.(transitions := T));
  }
}
