/** The line-oriented automaton format and its parser, as functions. A text is read line
    by line; a line starting with `#` selects the section that later lines belong to,
    every other line is added to the current section. Where the program prints
    "Syntax Error" and ends the process, the parse here ends with an error value that
    carries the offending line. */
module Parsing {
  import opened Text
  import opened Automata

  /** The section the parser is in. */
  datatype Status = NoSection | States | Initial | Accepting | Alphabet | Transitions

  datatype Reason =
    | OutsideSection          // a non-header line while no section is selected
    | SymbolLength            // an `#alphabet` line that is not exactly one character
    | TransitionSymbolLength  // a comma-separated symbol of a transition line that is not one character
    | ArrowBeforeColon        // a transition line whose first `>` precedes its first `:`

  datatype ParseError = SyntaxError(line: string, reason: Reason)

  /** The header line that selects a section. */
  function Keyword(st: Status): string
  {
    match st
    case NoSection => ""
    case States => "#states"
    case Initial => "#initial"
    case Accepting => "#accepting"
    case Alphabet => "#alphabet"
    case Transitions => "#transitions"
  }

  /** The section a header line selects: its lower-cased, trimmed text compared with the
      five keywords; any other header selects no section. */
  function SetStatus(line: string): Status
  {
    StatusOf(Trim(ToLower(line)))
  }

  /** The switch over the lower-cased, trimmed text of a header. */
  function StatusOf(key: string): Status
  {
    if key == "#states" then States
    else if key == "#initial" then Initial
    else if key == "#accepting" then Accepting
    else if key == "#alphabet" then Alphabet
    else if key == "#transitions" then Transitions
    else NoSection
  }

  /** Lines starting with `#` are headers. */
  predicate IsHeader(line: string)
  {
    |line| > 0 && line[0] == '#'
  }

  function ParseState(line: string): State
  {
    State(line)
  }

  function ParseSymbol(line: string): Result<char, ParseError>
  {
    if |line| == 1 then Ok(line[0]) else Err(SyntaxError(line, SymbolLength))
  }

  /** The transitions of one line `src:x1,...,xn>dst`: one per symbol. A line without
      `:` or without `>` yields none and is no error. */
  function TransitionLine(line: string): Result<set<Transition>, ParseError>
  {
    var colon := IndexOf(line, ':');
    var arrow := IndexOf(line, '>');
    if colon < 0 || arrow < 0 then Ok({})
    else if arrow < colon then Err(SyntaxError(line, ArrowBeforeColon))
    else SymbolTransitions(line, line[..colon], line[colon + 1..arrow], line[arrow + 1..])
  }

  /** The transitions of a line split into its source label, its comma-separated
      symbol list and its destination label; every piece of the list must be one
      character. */
  function SymbolTransitions(line: string, src: string, list: string, dst: string): Result<set<Transition>, ParseError>
  {
    var pieces := Split(list, ',');
    if SingleChars(pieces) then Ok(Expand(State(src), pieces, State(dst)))
    else Err(SyntaxError(line, TransitionSymbolLength))
  }

  /** Every piece is one character long. */
  predicate SingleChars(pieces: seq<string>)
  {
    forall k | 0 <= k < |pieces| :: |pieces[k]| == 1
  }

  /** One transition from `src` to `dst` per one-character piece. */
  function Expand(src: State, pieces: seq<string>, dst: State): set<Transition>
  {
    set p | p in pieces && |p| == 1 :: Transition(src, dst, p[0])
  }

  /** The effect of one non-header line in section `st`. */
  function AddLine(st: Status, line: string, acc: Automaton): Result<Automaton, ParseError>
  {
    match st
    case NoSection => Err(SyntaxError(line, OutsideSection))
    case States => Ok(acc.(states := acc.states + {ParseState(line)}))
    case Initial => Ok(acc.(initial := Some(ParseState(line))))
    case Accepting => Ok(acc.(accepting := acc.accepting + {ParseState(line)}))
    case Alphabet =>
      (match ParseSymbol(line)
       case Ok(c) => Ok(acc.(alphabet := acc.alphabet + {c}))
       case Err(e) => Err(e))
    case Transitions =>
      (match TransitionLine(line)
       case Ok(ts) => Ok(acc.(transitions := acc.transitions + ts))
       case Err(e) => Err(e))
  }

  /** The single pass over the lines, with the sticky section `st` and the automaton
      `acc` built so far. */
  function ParseLines(lines: seq<string>, st: Status, acc: Automaton): Result<Automaton, ParseError>
    decreases |lines|
  {
    if lines == [] then Ok(acc)
    else if IsHeader(lines[0]) then ParseLines(lines[1..], SetStatus(lines[0]), acc)
    else
      match AddLine(st, lines[0], acc)
      case Err(e) => Err(e)
      case Ok(next) => ParseLines(lines[1..], st, next)
  }

  /** The parse of a whole text. */
  function Parse(text: string): Result<Automaton, ParseError>
  {
    ParseLines(Lines(text), NoSection, Empty)
  }

  /** The lines of one section body added in order. */
  function AddLines(st: Status, body: seq<string>, acc: Automaton): Result<Automaton, ParseError>
    decreases |body|
  {
    if body == [] then Ok(acc)
    else
      match AddLine(st, body[0], acc)
      case Err(e) => Err(e)
      case Ok(next) => AddLines(st, body[1..], next)
  }

  /** Continue the parse after a section body. */
  function Continue(r: Result<Automaton, ParseError>, rest: seq<string>, st: Status): Result<Automaton, ParseError>
  {
    match r
    case Err(e) => Err(e)
    case Ok(next) => ParseLines(rest, st, next)
  }

  // ---------------------------------------------------------------------------
  // Section headers

  /** A header is recognised whatever the case of its letters and whatever white space
      surrounds it. */
  lemma HeaderRecognised(st: Status, pre: string, h: string, post: string)
    requires st != NoSection
    requires ToLower(h) == Keyword(st)
    requires forall k | 0 <= k < |pre| :: IsWhiteSpace(pre[k])
    requires forall k | 0 <= k < |post| :: IsWhiteSpace(post[k])
    ensures SetStatus(pre + h + post) == st
  {
    LowerPadded(pre, h, post);
    TrimKeyword(st, pre, post);
    KeySelects(pre + h + post, st);
  }

  /** A keyword starts with `#` and ends in a lower-case letter. */
  lemma KeywordShape(st: Status)
    requires st != NoSection
    ensures |Keyword(st)| > 1 && Keyword(st)[0] == '#' && 'a' <= Keyword(st)[|Keyword(st)| - 1] <= 'z'
  {
  }

  lemma TrimKeyword(st: Status, pre: string, post: string)
    requires st != NoSection
    requires forall k | 0 <= k < |pre| :: IsWhiteSpace(pre[k])
    requires forall k | 0 <= k < |post| :: IsWhiteSpace(post[k])
    ensures Trim(pre + Keyword(st) + post) == Keyword(st)
  {
    KeywordShape(st);
    TrimPadded(pre, Keyword(st), post);
  }

  /** A line whose trimmed lower-case text is a keyword selects that keyword's section;
      the five keywords have five different lengths. */
  lemma KeySelects(line: string, st: Status)
    requires st != NoSection && Trim(ToLower(line)) == Keyword(st)
    ensures SetStatus(line) == st
  {
    KeyStatus(st);
  }

  /** Each keyword is matched by its own case of the switch. */
  lemma KeyStatus(st: Status)
    requires st != NoSection
    ensures StatusOf(Keyword(st)) == st
  {
  }

  lemma KeywordLower(st: Status)
    ensures ToLower(Keyword(st)) == Keyword(st)
  {
    LowerUnchanged(Keyword(st));
  }

  /** Each keyword selects its own section. */
  lemma SetStatusKeyword(st: Status)
    requires st != NoSection
    ensures IsHeader(Keyword(st)) && SetStatus(Keyword(st)) == st
  {
    KeywordLower(st);
    KeywordShape(st);
    TrimWord(Keyword(st));
    KeySelects(Keyword(st), st);
  }

  /** A section other than none is only ever selected by its keyword. */
  lemma SetStatusSound(line: string)
    ensures SetStatus(line) != NoSection ==> Trim(ToLower(line)) == Keyword(SetStatus(line))
  {
    StatusOfSound(Trim(ToLower(line)));
  }

  lemma StatusOfSound(key: string)
    ensures StatusOf(key) != NoSection ==> key == Keyword(StatusOf(key))
  {
  }

  // ---------------------------------------------------------------------------
  // Section bodies

  /** A run of non-header lines is handed, line by line, to the current section. */
  lemma {:induction false} ParseBody(body: seq<string>, rest: seq<string>, st: Status, acc: Automaton)
    requires forall l | l in body :: !IsHeader(l)
    ensures ParseLines(body + rest, st, acc) == Continue(AddLines(st, body, acc), rest, st)
    decreases |body|
  {
    if body == [] {
      assert body + rest == rest;
    } else {
      assert (body + rest)[0] == body[0];
      assert (body + rest)[1..] == body[1..] + rest;
      match AddLine(st, body[0], acc)
      case Err(e) =>
      case Ok(next) => ParseBody(body[1..], rest, st, next);
    }
  }

  /** A header followed by its body: the body goes to the section the header selects,
      whatever section was selected before. */
  lemma ParseSection(h: string, body: seq<string>, rest: seq<string>, prev: Status, acc: Automaton)
    requires IsHeader(h)
    requires forall l | l in body :: !IsHeader(l)
    ensures ParseLines([h] + body + rest, prev, acc) == Continue(AddLines(SetStatus(h), body, acc), rest, SetStatus(h))
  {
    var lines := [h] + body + rest;
    assert lines[0] == h;
    assert lines[1..] == body + rest;
    ParseBody(body, rest, SetStatus(h), acc);
  }

  /** A non-header line while no section is selected is a syntax error, also after
      header lines that select no section. */
  lemma {:induction false} OutsideSectionRejected(prefix: seq<string>, l: string, rest: seq<string>, st: Status, acc: Automaton)
    requires forall h | h in prefix :: IsHeader(h) && SetStatus(h) == NoSection
    requires prefix != [] || st == NoSection
    requires !IsHeader(l)
    ensures ParseLines(prefix + [l] + rest, st, acc) == Err(SyntaxError(l, OutsideSection))
    decreases |prefix|
  {
    var lines := prefix + [l] + rest;
    if prefix == [] {
      assert lines[0] == l;
    } else {
      assert lines[0] == prefix[0];
      assert lines[1..] == prefix[1..] + [l] + rest;
      OutsideSectionRejected(prefix[1..], l, rest, NoSection, acc);
    }
  }

  /** The states named by the lines of a body. */
  function LineStates(body: seq<string>): set<State>
  {
    set l | l in body :: State(l)
  }

  /** Every line of a `#states` body becomes a state. */
  lemma {:induction false} StatesSection(body: seq<string>, acc: Automaton)
    ensures AddLines(States, body, acc) == Ok(acc.(states := acc.states + LineStates(body)))
    decreases |body|
  {
    if body == [] {
      assert LineStates(body) == {};
      assert acc.states + LineStates(body) == acc.states;
    } else {
      StatesSection(body[1..], acc.(states := acc.states + {State(body[0])}));
      assert LineStates(body) == {State(body[0])} + LineStates(body[1..]);
      assert acc.states + {State(body[0])} + LineStates(body[1..]) == acc.states + LineStates(body);
    }
  }

  /** Every line of an `#accepting` body becomes an accepting state. */
  lemma {:induction false} AcceptingSection(body: seq<string>, acc: Automaton)
    ensures AddLines(Accepting, body, acc) == Ok(acc.(accepting := acc.accepting + LineStates(body)))
    decreases |body|
  {
    if body == [] {
      assert LineStates(body) == {};
      assert acc.accepting + LineStates(body) == acc.accepting;
    } else {
      AcceptingSection(body[1..], acc.(accepting := acc.accepting + {State(body[0])}));
      assert LineStates(body) == {State(body[0])} + LineStates(body[1..]);
      assert acc.accepting + {State(body[0])} + LineStates(body[1..]) == acc.accepting + LineStates(body);
    }
  }

  /** In an `#initial` body the last line wins. */
  lemma {:induction false} InitialSection(body: seq<string>, acc: Automaton)
    requires body != []
    ensures AddLines(Initial, body, acc) == Ok(acc.(initial := Some(State(body[|body| - 1]))))
    decreases |body|
  {
    if |body| > 1 {
      InitialSection(body[1..], acc.(initial := Some(State(body[0]))));
    }
  }

  /** The symbols of the one-character lines of a body. */
  function LineSymbols(body: seq<string>): set<char>
  {
    set l | l in body && |l| == 1 :: l[0]
  }

  /** An `#alphabet` body is accepted exactly when each of its lines is one character,
      and then each line's character becomes a symbol. */
  lemma {:induction false} AlphabetSection(body: seq<string>, acc: Automaton)
    ensures AddLines(Alphabet, body, acc).Ok? <==> forall l | l in body :: |l| == 1
    ensures AddLines(Alphabet, body, acc).Ok? ==>
              AddLines(Alphabet, body, acc).value == acc.(alphabet := acc.alphabet + LineSymbols(body))
    decreases |body|
  {
    if body == [] {
      assert LineSymbols(body) == {};
    } else if |body[0]| == 1 {
      AlphabetSection(body[1..], acc.(alphabet := acc.alphabet + {body[0][0]}));
      assert LineSymbols(body) == {body[0][0]} + LineSymbols(body[1..]);
      assert forall l | l in body :: l == body[0] || l in body[1..];
    } else {
      assert body[0] in body;
    }
  }

  /** The transitions of the well-formed transition lines of a body. */
  function LineTransitions(body: seq<string>): set<Transition>
  {
    set l, t | l in body && TransitionLine(l).Ok? && t in TransitionLine(l).value :: t
  }

  /** A `#transitions` body is accepted exactly when each of its lines is, and then its
      transitions are those of all its lines. */
  lemma {:induction false} TransitionsSection(body: seq<string>, acc: Automaton)
    ensures AddLines(Transitions, body, acc).Ok? <==> forall l | l in body :: TransitionLine(l).Ok?
    ensures AddLines(Transitions, body, acc).Ok? ==>
              AddLines(Transitions, body, acc).value == acc.(transitions := acc.transitions + LineTransitions(body))
    decreases |body|
  {
    if body == [] {
      assert LineTransitions(body) == {};
    } else if TransitionLine(body[0]).Ok? {
      var ts := TransitionLine(body[0]).value;
      TransitionsSection(body[1..], acc.(transitions := acc.transitions + ts));
      assert LineTransitions(body) == ts + LineTransitions(body[1..]);
      assert forall l | l in body :: l == body[0] || l in body[1..];
    } else {
      assert body[0] in body;
    }
  }

  // ---------------------------------------------------------------------------
  // Transition lines

  /** Where the separators of `src:j>dst` are found. */
  lemma SeparatorPositions(src: string, j: string, dst: string)
    requires ':' !in src && '>' !in src && '>' !in j
    ensures var line := src + ":" + j + ">" + dst;
      IndexOf(line, ':') == |src| && IndexOf(line, '>') == |src| + 1 + |j|
      && line[..|src|] == src && line[|src| + 1..|src| + 1 + |j|] == j && line[|src| + 2 + |j|..] == dst
  {
    ColonPosition(src, j, dst);
    ArrowPosition(src, j, dst);
  }

  lemma ColonPosition(src: string, j: string, dst: string)
    requires ':' !in src
    ensures IndexOf(src + ":" + j + ">" + dst, ':') == |src|
  {
    assert src + ":" + j + ">" + dst == src + (":" + j + ">" + dst);
    IndexOfAfter(src, ":" + j + ">" + dst, ':');
  }

  lemma ArrowPosition(src: string, j: string, dst: string)
    requires '>' !in src && '>' !in j
    ensures IndexOf(src + ":" + j + ">" + dst, '>') == |src| + 1 + |j|
  {
    assert '>' !in src + ":" + j;
    assert src + ":" + j + ">" + dst == (src + ":" + j) + (">" + dst);
    IndexOfAfter(src + ":" + j, ">" + dst, '>');
  }

  /** The characters of a comma-joined symbol list are commas and the symbols. */
  lemma SymbolListChars(syms: seq<char>, x: char)
    requires x in Join(CharStrings(syms), ',')
    ensures x == ',' || x in syms
  {
    CharsOfJoin(CharStrings(syms), ',', x);
  }

  /** Splitting a comma-joined list of symbols other than `,` gives one piece per symbol. */
  lemma SplitSymbolList(syms: seq<char>)
    requires syms != [] && ',' !in syms
    ensures Split(Join(CharStrings(syms), ','), ',') == CharStrings(syms)
  {
    SplitJoin(CharStrings(syms), ',');
  }

  /** The transitions of one piece per symbol are the transitions of the symbols. */
  lemma PiecesTransitions(syms: seq<char>, src: State, dst: State)
    ensures Expand(src, CharStrings(syms), dst) == set x | x in syms :: Transition(src, dst, x)
  {
    var parts := CharStrings(syms);
    var got := set p | p in parts && |p| == 1 :: Transition(src, dst, p[0]);
    var want := set x | x in syms :: Transition(src, dst, x);
    forall t | t in want ensures t in got {
      var k :| 0 <= k < |syms| && t.symbol == syms[k];
      assert parts[k] in parts;
    }
  }

  /** A transition line whose separators are in order and whose symbols are all one
      character long. */
  lemma TransitionLineAccepted(line: string, src: string, j: string, dst: string)
    requires IndexOf(line, ':') == |src| && IndexOf(line, '>') == |src| + 1 + |j|
    requires line[..|src|] == src && line[|src| + 1..|src| + 1 + |j|] == j && line[|src| + 2 + |j|..] == dst
    requires SingleChars(Split(j, ','))
    ensures TransitionLine(line) == Ok(Expand(State(src), Split(j, ','), State(dst)))
  {
    LineParts(line, src, j, dst);
    SymbolsAccepted(line, src, j, dst);
  }

  /** A line whose separators are in order is split at them. */
  lemma LineParts(line: string, src: string, j: string, dst: string)
    requires IndexOf(line, ':') == |src| && IndexOf(line, '>') == |src| + 1 + |j|
    requires line[..|src|] == src && line[|src| + 1..|src| + 1 + |j|] == j && line[|src| + 2 + |j|..] == dst
    ensures TransitionLine(line) == SymbolTransitions(line, src, j, dst)
  {
  }

  lemma SymbolsAccepted(line: string, src: string, j: string, dst: string)
    requires SingleChars(Split(j, ','))
    ensures SymbolTransitions(line, src, j, dst) == Ok(Expand(State(src), Split(j, ','), State(dst)))
  {
  }

  lemma TransitionLineOfSymbols(src: string, syms: seq<char>, dst: string)
    requires ':' !in src && '>' !in src
    requires syms != [] && ',' !in syms && '>' !in syms
    ensures TransitionLine(src + ":" + Join(CharStrings(syms), ',') + ">" + dst)
            == Ok(set x | x in syms :: Transition(State(src), State(dst), x))
  {
    var parts := CharStrings(syms);
    var j := Join(parts, ',');
    var line := src + ":" + j + ">" + dst;
    forall x | x in j ensures x != '>' {
      SymbolListChars(syms, x);
    }
    SeparatorPositions(src, j, dst);
    SplitSymbolList(syms);
    assert SingleChars(parts);
    TransitionLineAccepted(line, src, j, dst);
    PiecesTransitions(syms, State(src), State(dst));
  }

  /** A line without a `:` or without a `>` adds nothing and is no error. */
  lemma TransitionLineWithoutSeparators(line: string)
    requires ':' !in line || '>' !in line
    ensures TransitionLine(line) == Ok({})
  {
  }

  /** A transition line is rejected exactly when a separator is out of order or one of
      its comma-separated symbols is not one character. */
  lemma TransitionLineRejected(line: string)
    requires ':' in line && '>' in line
    ensures TransitionLine(line).Err? <==>
              IndexOf(line, '>') < IndexOf(line, ':') ||
              !SingleChars(Split(line[IndexOf(line, ':') + 1..IndexOf(line, '>')], ','))
  {
  }
}
