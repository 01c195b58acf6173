# DFACut automaton engine in Dafny

DFACut reads two deterministic finite automata from text files. It builds their
product (intersection), trims the product and writes the result back as text. All of
this logic is the `DFA` class of `DFACut/DFA.cs`. This project models that class and
proves properties of the model.

The automaton has five sets: states, an optional initial state, accepting states,
alphabet and transitions. A state is identified by its label. A transition is a
(source, destination, symbol) triple.

The files follow the class:

- `text.dfy` (module `Text`) models the .NET string operations the class relies on.
  These are `IndexOf`, `Split`, `Trim`, `ToLower`, reading a text line by line, and
  `StringBuilder.AppendLine`. `Join` models the loop that writes a symbol list with a
  comma after each symbol but the last.
- `model.dfy` (module `Automata`) holds the value types and the validity check. It
  also defines walks through an automaton and the language it accepts.
- `parser.dfy` (module `Parsing`) models `parseDFA` as a fold over the lines of the
  text. A sticky section status selects where each line goes. The module also models
  `setStatus`, `parseState`, `parseSymbol` and `parseTransition`.
- `product.dfy` (module `Product`) models `Intersect` as set equations.
- `trim.dfy` (module `Trimming`) models `Optimize` in three steps:
  - reachability from the initial state;
  - the repeated dead-end removal of `RemoveDeadEnds`;
  - recomputing the alphabet from the transitions that remain.
- `printer.dfy` (module `Printing`) models `printDFA`. The text depends on the order in
  which hash sets and `GroupBy` hand out their elements. That order is an explicit
  `Layout` argument, and every property holds for every layout.
- `dfa.dfy` (module `Engine`) is the class itself. `DFA` has the five sets as mutable
  fields. Its methods have the source's loops, and each method is proved equal to the
  value-level function above:
  - `ParseDFA` walks the lines and fills a fresh object;
  - `Intersect` uses nested loops over the sets;
  - `ReachableStates` is a worklist search;
  - `RemoveDeadEnds` overwrites the `transitions` field on every pass, as the source's
    `ref` argument does;
  - `Optimize` overwrites `states` and `alphabet`;
  - the print methods append line by line.
- `scenarios.dfy` (module `Scenarios`) holds concrete automata. They pin down what the
  validity check lets through and what trimming does to a product with no common word.

Parse errors are values. The source prints "Syntax Error" and ends the process. Here
the parser returns `Err(SyntaxError(line, reason))` with the offending line.

The source calls `Optimize` only on the output of `Intersect`, whose initial state is
always present. The model still defines `Optimize` without an initial state. It then
starts from no states, so states and transitions become empty. The source reaches the
same result: it adds a null state, finds that the null state has no outgoing
transition, and drops it.

## Model

| member | source | states |
|---|---|---|
| Text.IndexOf | DFACut/DFA.cs:220-221 | the first position of the character, or -1 exactly when it does not occur |
| Text.LinesOfUnlines | DFACut/DFA.cs:139-142 | reading back, line by line, a text written with `AppendLine` gives the same lines |
| Text.JoinSplit | DFACut/DFA.cs:227 | joining the comma pieces of a symbol list gives the list back |
| Text.SplitJoin | DFACut/DFA.cs:227 | splitting a comma-joined list of comma-free pieces gives the pieces back |
| Text.TrimPadded | DFACut/DFA.cs:182 | `Trim` removes exactly the surrounding white space of a word |
| Parsing.HeaderRecognised | DFACut/DFA.cs:180-197 | a `#` line whose lower-cased text, with white space around it, is a section keyword selects that section whatever its letter case |
| Parsing.SetStatusKeyword | DFACut/DFA.cs:180-197 | each keyword is a header line and selects its own section |
| Parsing.SetStatusSound | DFACut/DFA.cs:180-197 | a header selects a section only when its trimmed lower-case text is that section's keyword; any other header selects none |
| Parsing.ParseBody | DFACut/DFA.cs:142-173 | the non-header lines after a header are added one by one to the section that header selected |
| Parsing.ParseSection | DFACut/DFA.cs:145-167 | a header line followed by non-header lines adds those lines to the section the header selects, and that section stays selected for what follows |
| Parsing.OutsideSectionRejected | DFACut/DFA.cs:151-171 | a non-header line read while no section is selected is a syntax error naming that line; this covers the start of the text and the lines after an unknown header |
| Parsing.StatesSection | DFACut/DFA.cs:153-155 | a `#states` section adds one state per line, labelled by the whole line |
| Parsing.AcceptingSection | DFACut/DFA.cs:159-161 | an `#accepting` section adds one accepting state per line |
| Parsing.InitialSection | DFACut/DFA.cs:156-158 | in an `#initial` section the last line wins |
| Parsing.AlphabetSection | DFACut/DFA.cs:202-214 | an `#alphabet` section is accepted exactly when every line has length 1, and then it adds those characters |
| Parsing.TransitionsSection | DFACut/DFA.cs:165-167 | a `#transitions` section is accepted exactly when each of its lines is, and then it adds the union of their transitions |
| Parsing.TransitionLineOfSymbols | DFACut/DFA.cs:216-244 | the line `s:x1,...,xn>d` yields exactly the transitions `(s, d, xi)` |
| Parsing.TransitionLineWithoutSeparators | DFACut/DFA.cs:220-222 | a line without `:` or without `>` adds nothing and raises no error |
| Parsing.TransitionLineRejected | DFACut/DFA.cs:220-238 | a line with both separators is an error exactly when `>` comes before `:` or some comma piece does not have length 1 |
| Engine.DFA.ParseDFA | DFACut/DFA.cs:134-178 | the loop over the lines succeeds exactly when the fold does; then a fresh object holds the parsed automaton, otherwise the error is the fold's error |
| Engine.DFA.ParseTransition | DFACut/DFA.cs:216-244 | the method yields the same transitions or error as the line function: nothing without both separators, an error when `>` comes first, otherwise the symbol list |
| Engine.DFA.ParseSymbolList | DFACut/DFA.cs:227-239 | the loop over the comma pieces yields one transition per piece, or the error at the first piece that is not one character long |
| Engine.DFA.constructor | DFACut/DFA.cs:255 | a new object is empty and has no initial state |
| Engine.DFA.Of | DFACut/DFA.cs:257-264 | a new object holds exactly the five given sets |
| Product.Intersect | DFACut/DFA.cs:78-121 | the product always has an initial state; its alphabet is the union of both alphabets; with both initial states present, its initial state is their joined pair |
| Product.AbsentInitial | DFACut/DFA.cs:91 | a missing first initial state contributes an empty label, so the product's initial label is `"_"` followed by the second one |
| Product.PairInjective | DFACut/DFA.cs:86 | when neither first-side label contains `_`, two joined labels are equal exactly when both sides are equal |
| Product.PairCollision | DFACut/DFA.cs:86 | without that condition the join collides: `a` with `b_c` and `a_b` with `c` give the same state |
| Product.RowSize | DFACut/DFA.cs:84-87 | one row of the product has as many states as the second automaton |
| Product.RowApart | DFACut/DFA.cs:82-88 | rows of distinct underscore-free first states do not overlap |
| Product.PairStatesSize | DFACut/DFA.cs:81-88 | with underscore-free first labels the product has exactly `|S1| * |S2|` states |
| Product.IntersectValid | DFACut/DFA.cs:78-121 | the product of two valid automata is valid |
| Product.Zip | DFACut/DFA.cs:107-118 | two walks that read the same word combine into a walk of the product between the joined states |
| Product.Unzip | DFACut/DFA.cs:107-118 | a walk of the product splits into two walks that read the same word, when the first automaton's labels have no `_` |
| Product.IntersectLanguage | DFACut/DFA.cs:78-121 | with both initial states present and no `_` in the first automaton's labels, the product accepts exactly the words both automata accept |
| Engine.DFA.Intersect | DFACut/DFA.cs:78-121 | the nested loops build a fresh object holding exactly the product; the inputs are not written |
| Engine.DFA.PairUp | DFACut/DFA.cs:81-88 | the nested loops over two state sets give every joined pair |
| Engine.DFA.PairRow | DFACut/DFA.cs:84-87 | the inner loop pairs one state with every state of the other set |
| Engine.DFA.SyncTransitions | DFACut/DFA.cs:107-118 | the nested loops over both transition sets give exactly the product transitions |
| Engine.DFA.SyncWith | DFACut/DFA.cs:110-117 | the inner loop pairs one transition with every transition on the same symbol |
| Scenarios.DanglingTransitionValid | DFACut/DFA.cs:266-296 | validity ignores transitions: one that leaves the states and reads a symbol outside the alphabet does not make an automaton invalid |
| Trimming.ReachableClosed | DFACut/DFA.cs:330-341 | the start state is reachable, and the reachable set is closed under transitions |
| Trimming.ReachableLeast | DFACut/DFA.cs:330-341 | the reachable set lies inside every closed set that holds the start state |
| Trimming.StartClosed | DFACut/DFA.cs:298-304 | the states the search starts trimming from are closed and hold the initial state |
| Trimming.Prune | DFACut/DFA.cs:317-328 | dead-end removal keeps a subset of the states and of the transitions, and every kept transition has both ends kept |
| Trimming.PassKeepsPath | DFACut/DFA.cs:321-322 | one removal pass keeps every walk that ends in a kept state |
| Trimming.PruneKeepsLive | DFACut/DFA.cs:317-328 | every state with a walk to an accepting state survives, together with that walk |
| Trimming.PruneConnected | DFACut/DFA.cs:317-328 | if anything survives, the start survives, and every survivor is reachable from it through surviving transitions |
| Trimming.PruneTrimmed | DFACut/DFA.cs:317-328 | every survivor is accepting or is the source of a surviving transition |
| Trimming.PruneStable | DFACut/DFA.cs:317-328 | on a set that is already trimmed and closed, removal changes nothing |
| Trimming.OptimizeShrinks | DFACut/DFA.cs:298-315 | trimming keeps the initial and accepting states as they were; the states are reachable ones; the transitions are a subset of the old ones; the alphabet is exactly the symbols of the remaining transitions; every remaining transition has both ends among the states |
| Trimming.OptimizeTrimmed | DFACut/DFA.cs:317-328 | after trimming every state is accepting or has an outgoing transition |
| Trimming.OptimizeKeepsLive | DFACut/DFA.cs:298-341 | every state reachable from the initial state that can reach an accepting state is kept, with its walk |
| Trimming.OptimizeConnected | DFACut/DFA.cs:298-341 | without an initial state, or when it is dropped, no states and no transitions remain; otherwise every kept state is reachable from it through kept transitions |
| Trimming.RestartKept | DFACut/DFA.cs:298-341 | when the initial state is kept, the kept states are exactly what is reachable from it afterwards |
| Trimming.RestartDropped | DFACut/DFA.cs:298-341 | when the initial state is dropped, trimming again changes nothing |
| Trimming.OptimizeIdempotent | DFACut/DFA.cs:298-341 | trimming twice is the same as trimming once |
| Trimming.ReachableAlone | DFACut/DFA.cs:330-341 | with no transitions only the start is reachable |
| Trimming.DroppedNotAccepting | DFACut/DFA.cs:317-328 | an accepting initial state is never dropped |
| Trimming.OptimizeLanguage | DFACut/DFA.cs:298-341 | trimming does not change the accepted language |
| Engine.DFA.ReachableStates | DFACut/DFA.cs:330-341 | the search returns exactly the states reachable from its start |
| Engine.DFA.RemoveDeadEnds | DFACut/DFA.cs:317-328 | the recursive removal returns the surviving states and leaves in the field exactly the surviving transitions |
| Engine.DFA.Optimize | DFACut/DFA.cs:298-315 | the object afterwards holds exactly the trimmed automaton |
| Scenarios.NoTransitionsTrimmed | DFACut/DFA.cs:298-328 | an automaton without transitions whose initial state is not accepting loses every state to trimming, the initial one included, so it prints as `Invalid DFA.` |
| Scenarios.EmptyProduct | DFACut/DFA.cs:78-121 | for the example pair `OnlyX` and `OnlyY`, which share no word, the product has no transitions; trimming it drops every state, the initial one included, so it prints as `Invalid DFA.` |
| Scenarios.DisjointSymbols | DFACut/DFA.cs:107-118 | when the two automata share no transition symbol, the product and its trimmed form have no transitions, and the trimmed alphabet is empty |
| Printing.PrintText | DFACut/DFA.cs:345-361 | the text is `Invalid DFA.` exactly when the automaton is not valid |
| Printing.Render | DFACut/DFA.cs:352-360 | the five sections begin with a `#` header, so they never read as the invalid message |
| Printing.IdsBody | DFACut/DFA.cs:364-374 | state lines that are printable read back as exactly the listed states |
| Printing.SymbolsBody | DFACut/DFA.cs:396-405 | symbol lines read back as exactly the listed symbols, each one line of length 1 |
| Printing.GroupLineBack | DFACut/DFA.cs:415-428 | a printed `src:x1,...,xk>dst` line reads back as exactly the transitions of its symbols |
| Printing.GroupBack | DFACut/DFA.cs:413-429 | a group listing one pair's symbols reads back as that pair's transitions |
| Printing.GroupMember | DFACut/DFA.cs:413-428 | a transition read back from the line of one group is a transition of the automaton |
| Printing.GroupsSound | DFACut/DFA.cs:406-433 | the transition lines read back only transitions of the automaton |
| Printing.GroupsComplete | DFACut/DFA.cs:406-433 | the transition lines read back every transition of the automaton |
| Printing.GroupsBody | DFACut/DFA.cs:406-433 | the transition lines are clean non-header lines that read back as exactly the transition set |
| Printing.RenderLines | DFACut/DFA.cs:352-358 | the printed text is the `AppendLine` text of the five sections' lines in order |
| Printing.PrintedLinesOk | DFACut/DFA.cs:345-433 | no printed line of a printable automaton contains a line break |
| Printing.ParsePrinted | DFACut/DFA.cs:134-178 | parsing the printed lines restores all five sets |
| Printing.RoundTrip | DFACut/DFA.cs:134-433 | for a valid automaton whose labels and symbols are printable, parsing the printed text gives the automaton back, for every order of listing |
| Engine.DFA.PrintDFA | DFACut/DFA.cs:345-361 | the method's text is the printed form for the order it listed the sets in; it is `Invalid DFA.` exactly when the automaton is invalid, and otherwise, when labels and symbols are printable, parsing it gives the automaton back |
| Engine.DFA.ListStates | DFACut/DFA.cs:364-374 | the header followed by one line per state, each state exactly once |
| Engine.DFA.ListSymbols | DFACut/DFA.cs:396-405 | the header followed by one line per symbol, each symbol exactly once |
| Engine.DFA.PrintTransitions | DFACut/DFA.cs:406-433 | the header followed by one line per distinct (source, destination) pair, each line listing exactly that pair's symbols |
| Engine.DFA.SourceLines | DFACut/DFA.cs:413-431 | one line per destination of the transitions leaving one source, each destination exactly once |
| Engine.DFA.PrintGroup | DFACut/DFA.cs:415-428 | the line of one (source, destination) group lists exactly that pair's symbols |
| Engine.DFA.SymbolList | DFACut/DFA.cs:418-425 | the symbols joined by commas, a comma only between two symbols, each symbol exactly once |
| Engine.DFA.Enumerate | DFACut/DFA.cs:413 | the keys of a grouping are the set's elements, each exactly once |

## Left out

- `DFACut/Program.cs` is not part of this model. It checks the argument count, reads and
  writes files and prints console messages, and it only calls `parseDFA`, `Intersect`,
  `Optimize` and `printDFA`.
- Printing "Syntax Error" and ending the process are replaced by an error result
  carrying the line and the reason.
- The `>`-before-`:` case is a runtime exception in the source, from a negative
  `Substring` length. Here it is the error reason `ArrowBeforeColon`.
- The trace that `isValid` prints for transitions with unknown sources is left out. It
  does not affect the result.
- Hash codes and iteration order of `HashSet` and `GroupBy` are not modelled. Printing
  takes the order as a `Layout`, and the engine's loops choose an arbitrary element.
- Line ends: only `\n` separates lines. `\r\n`, a lone `\r` (which `ReadLine` also
  treats as a line end) and `Environment.NewLine` are not modelled. The round-trip
  lemmas therefore require labels and symbols without `\r`.
- `ToLower` follows the invariant culture on ASCII letters only. Culture-specific and
  non-ASCII case mapping is not modelled. `Trim` uses the white-space set of
  `Char.IsWhiteSpace`.
- `StartsWith("#")` is a culture-sensitive comparison in the source, which skips
  ignorable code points such as U+00AD before the `#`. The model tests the first
  character only, so such a line is a body line here and a header selecting no section
  in the program.
- Characters are Dafny `char`s. UTF-16 surrogate pairs are not modelled.
- `ReachableStates` is a recursive depth-first search in the source. The model is a
  worklist loop with the same result set. Call-stack depth is not modelled.
  `RemoveDeadEnds` stays recursive.
- The source's field is spelled `inital`. The model calls it `initial`.
- Null `HashSet` fields, which `isValid` checks for, cannot occur in the model: every
  set is a value.
- Trimming the product of two automata with no common word can also drop the
  combined initial state: in `OnlyX` times `OnlyY` that state is neither accepting nor
  the source of a transition, so `RemoveDeadEnds` removes it (DFA.cs:321). The initial
  field keeps its value, and `Scenarios.EmptyProduct` proves that no states remain and
  the result prints as `Invalid DFA.`.
