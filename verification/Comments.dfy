/** Blanking of comments in C++ and Rust sources. */
module Comments {
  import opened Wrappers

  type Depth = d: nat | d >= 1 witness 1

  datatype State = Code | StringLiteral | CharLiteral | LineComment | BlockComment

  /** Where a scan stands, with what it has to remember there. */
  datatype Mode = InCode | InString(escaped: bool) | InChar(escaped: bool) | InLine | InBlock(depth: Depth)

  function CharAt(source: string, index: nat): Option<char> {
    if index < |source| then Some(source[index]) else None
  }

  function Newlines(s: string): nat {
    if s == "" then 0 else (if s[0] == '\n' then 1 else 0) + Newlines(s[1..])
  }

  function BlankChar(c: char): char {
    if c == '\n' then '\n' else ' '
  }

  /** How many characters one step of the scan reads, seeing the next one. */
  function TokenLength(nested: bool, mode: Mode, c: char, next: Option<char>): (n: nat)
    ensures n == 1 || (n == 2 && next.Some? && c != '\n' && next != Some('\n'))
  {
    match mode
    case InCode => if c == '/' && (next == Some('/') || next == Some('*')) then 2 else 1
    case InBlock(_) => if (nested && c == '/' && next == Some('*')) || (c == '*' && next == Some('/')) then 2 else 1
    case _ => 1
  }

  /** Only Rust comments nest. */
  function NextMode(nested: bool, mode: Mode, c: char, next: Option<char>): Mode {
    match mode
    case InCode =>
      if c == '/' && next == Some('/') then InLine
      else if c == '/' && next == Some('*') then InBlock(1)
      else if c == '"' then InString(false)
      else if c == '\'' then InChar(false)
      else InCode
    case InString(escaped) =>
      if escaped then InString(false) else if c == '\\' then InString(true) else if c == '"' then InCode else mode
    case InChar(escaped) =>
      if escaped then InChar(false) else if c == '\\' then InChar(true) else if c == '\'' then InCode else mode
    case InLine => if c == '\n' then InCode else mode
    case InBlock(depth) =>
      if nested && c == '/' && next == Some('*') then InBlock(depth + 1)
      else if c == '*' && next == Some('/') then (if depth == 1 then InCode else InBlock(depth - 1))
      else mode
  }

  /** Comment delimiters and comment characters become spaces, everything else is copied. */
  function Emitted(nested: bool, mode: Mode, c: char, next: Option<char>): (r: string)
    ensures |r| == TokenLength(nested, mode, c, next)
  {
    if TokenLength(nested, mode, c, next) == 2 then "  "
    else if mode.InLine? || mode.InBlock? then [BlankChar(c)]
    else [c]
  }

  function Strip(nested: bool, mode: Mode, s: string): (r: string)
    decreases |s|
  {
    if s == "" then ""
    else
      var c, next := s[0], CharAt(s, 1);
      Emitted(nested, mode, c, next) +
          Strip(nested, NextMode(nested, mode, c, next), s[TokenLength(nested, mode, c, next)..])
  }

  /** The state variables stand for a mode; inside a block comment the depth is at least one. */
  ghost predicate Represents(state: State, blockDepth: nat, escaped: bool, mode: Mode) {
    match state
    case Code => mode == InCode
    case StringLiteral => mode == InString(escaped)
    case CharLiteral => mode == InChar(escaped)
    case LineComment => mode == InLine
    case BlockComment => blockDepth >= 1 && mode == InBlock(blockDepth)
  }

  /** What was put out and what the rest of the source strips to make up the result. */
  ghost predicate Done(nested: bool, source: string, output: string, mode: Mode, index: nat)
    requires index <= |source|
  {
    output + Strip(nested, mode, source[index..]) == Strip(nested, InCode, source)
  }

  lemma DoneStep(nested: bool, source: string, output: string, mode: Mode, index: nat)
    requires index < |source| && Done(nested, source, output, mode, index)
    ensures var c, next := source[index], CharAt(source, index + 1);
            Done(nested, source, output + Emitted(nested, mode, c, next), NextMode(nested, mode, c, next),
                 index + TokenLength(nested, mode, c, next))
  {
    var c, next, rest := source[index], CharAt(source, index + 1), source[index..];
    var n := TokenLength(nested, mode, c, next);
    assert rest[0] == c && CharAt(rest, 1) == next && rest[n..] == source[index + n..];
    Associate(output, Emitted(nested, mode, c, next), Strip(nested, NextMode(nested, mode, c, next), rest[n..]));
  }

  /** One step of the scan on its state variables. */
  method ScanCharacter(
    nestedBlockComments: bool, state: State, blockDepth: nat, escaped: bool, ch: char, next: Option<char>,
    ghost mode: Mode)
    returns (state': State, blockDepth': nat, escaped': bool, emitted: string)
    requires Represents(state, blockDepth, escaped, mode)
    ensures Represents(state', blockDepth', escaped', NextMode(nestedBlockComments, mode, ch, next))
    ensures emitted == Emitted(nestedBlockComments, mode, ch, next)
  {
    state', blockDepth', escaped', emitted := state, blockDepth, escaped, [ch];
    match state {
      case Code =>
        if ch == '/' && next == Some('/') {
          emitted, state' := "  ", LineComment;
        } else if ch == '/' && next == Some('*') {
          emitted, state', blockDepth' := "  ", BlockComment, 1;
        } else if ch == '"' {
          state', escaped' := StringLiteral, false;
        } else if ch == '\'' {
          state', escaped' := CharLiteral, false;
        }
      case StringLiteral =>
        if escaped {
          escaped' := false;
        } else if ch == '\\' {
          escaped' := true;
        } else if ch == '"' {
          state' := Code;
        }
      case CharLiteral =>
        if escaped {
          escaped' := false;
        } else if ch == '\\' {
          escaped' := true;
        } else if ch == '\'' {
          state' := Code;
        }
      case LineComment =>
        emitted := [BlankChar(ch)];
        if ch == '\n' {
          state' := Code;
        }
      case BlockComment =>
        if nestedBlockComments && ch == '/' && next == Some('*') {
          emitted, blockDepth' := "  ", blockDepth + 1;
        } else if ch == '*' && next == Some('/') {
          emitted, blockDepth' := "  ", blockDepth - 1;
          if blockDepth' == 0 {
            state' := Code;
          }
        } else {
          emitted := [BlankChar(ch)];
        }
    }
  }

  method StripComments(source: string, nestedBlockComments: bool) returns (output: string)
    ensures output == Strip(nestedBlockComments, InCode, source)
  {
    output := "";
    var state, blockDepth: nat, escaped, index := Code, 0, false, 0;
    ghost var mode := InCode;
    assert source[0..] == source;
    while index < |source|
      invariant index <= |source|
      invariant Represents(state, blockDepth, escaped, mode)
      invariant Done(nestedBlockComments, source, output, mode, index)
    {
      DoneStep(nestedBlockComments, source, output, mode, index);
      var ch, next := source[index], CharAt(source, index + 1);
      var emitted;
      state, blockDepth, escaped, emitted :=
        ScanCharacter(nestedBlockComments, state, blockDepth, escaped, ch, next, mode);
      mode := NextMode(nestedBlockComments, mode, ch, next);
      output := output + emitted;
      index := index + |emitted|;
    }
  }

  // ----- positions -----

  /** Each character stays or becomes a space, and line feeds stay where they are. */
  ghost predicate Blanks(s: string, r: string) {
    && |r| == |s|
    && forall i :: 0 <= i < |s| ==> r[i] == s[i] || (r[i] == ' ' && s[i] != '\n')
  }

  lemma BlanksPrepend(a: string, b: string, s: string, r: string)
    requires Blanks(a, b) && Blanks(s, r)
    ensures Blanks(a + s, b + r)
  {
  }

  lemma {:induction false} StripKeepsPositions(nested: bool, mode: Mode, s: string)
    ensures Blanks(s, Strip(nested, mode, s))
    decreases |s|
  {
    if s != "" {
      var n := TokenLength(nested, mode, s[0], CharAt(s, 1));
      var next := NextMode(nested, mode, s[0], CharAt(s, 1));
      StripKeepsPositions(nested, next, s[n..]);
      BlanksPrepend(s[..n], Emitted(nested, mode, s[0], CharAt(s, 1)), s[n..], Strip(nested, next, s[n..]));
      assert s == s[..n] + s[n..];
    }
  }

  // ----- stripping twice -----

  lemma CopyStep(nested: bool, mode: Mode, s: string)
    requires s != "" && TokenLength(nested, mode, s[0], CharAt(s, 1)) == 1 && !mode.InLine? && !mode.InBlock?
    ensures Strip(nested, mode, s) == [s[0]] + Strip(nested, NextMode(nested, mode, s[0], CharAt(s, 1)), s[1..])
  {
  }

  lemma CopyBlank(nested: bool, c: char, s: string)
    requires c == ' ' || c == '\n'
    ensures Strip(nested, InCode, [c] + s) == [c] + Strip(nested, InCode, s)
  {
    CopyStep(nested, InCode, [c] + s);
    assert ([c] + s)[1..] == s;
  }

  /** A second scan finds code where the first one was in a comment. */
  function After(mode: Mode): Mode {
    if mode.InLine? || mode.InBlock? then InCode else mode
  }

  /** What one step of the scan leaves to the rest of it. */
  function Remainder(nested: bool, mode: Mode, s: string): string
    requires s != ""
  {
    var c, next := s[0], CharAt(s, 1);
    Strip(nested, NextMode(nested, mode, c, next), s[TokenLength(nested, mode, c, next)..])
  }

  predicate Blanking(nested: bool, mode: Mode, s: string)
    requires s != ""
  {
    TokenLength(nested, mode, s[0], CharAt(s, 1)) == 2 || mode.InLine? || mode.InBlock?
  }

  /** Behind blanks nothing is a comment: they are copied by a second scan. */
  lemma TwiceBehindBlanks(nested: bool, again: bool, mode: Mode, s: string)
    requires s != "" && Blanking(nested, mode, s)
    requires var rest := Remainder(nested, mode, s); Strip(again, InCode, rest) == rest
    ensures Strip(again, InCode, Strip(nested, mode, s)) == Strip(nested, mode, s)
  {
    var rest := Remainder(nested, mode, s);
    if TokenLength(nested, mode, s[0], CharAt(s, 1)) == 2 {
      assert Strip(nested, mode, s) == [' '] + ([' '] + rest);
      CopyBlank(again, ' ', rest);
      CopyBlank(again, ' ', [' '] + rest);
    } else {
      CopyBlank(again, BlankChar(s[0]), rest);
    }
  }

  lemma TwiceBehindCopy(nested: bool, again: bool, mode: Mode, s: string)
    requires s != "" && !Blanking(nested, mode, s)
    requires var rest := Remainder(nested, mode, s);
             Strip(again, NextMode(nested, mode, s[0], CharAt(s, 1)), rest) == rest
    ensures Strip(again, mode, Strip(nested, mode, s)) == Strip(nested, mode, s)
  {
    var r := Strip(nested, mode, s);
    CopyStep(nested, mode, s);
    assert r[0] == s[0] && r[1..] == Remainder(nested, mode, s);
    if mode.InCode? {
      StaysCode(nested, s);
    }
    assert NextMode(again, mode, r[0], CharAt(r, 1)) == NextMode(nested, mode, s[0], CharAt(s, 1));
    CopyStep(again, mode, r);
  }

  lemma AfterStep(nested: bool, mode: Mode, s: string)
    requires s != ""
    ensures var next := NextMode(nested, mode, s[0], CharAt(s, 1));
            if Blanking(nested, mode, s) then After(mode) == After(next) == InCode
            else After(mode) == mode && After(next) == next
  {
  }

  /** Stripping what was stripped changes nothing, whichever way comments nest in either scan. */
  lemma {:induction false} StripTwice(nested: bool, again: bool, mode: Mode, s: string)
    ensures Strip(again, After(mode), Strip(nested, mode, s)) == Strip(nested, mode, s)
    decreases |s|
  {
    if s != "" {
      AfterStep(nested, mode, s);
      TwiceRemainder(nested, again, mode, s);
      if Blanking(nested, mode, s) {
        TwiceBehindBlanks(nested, again, mode, s);
      } else {
        TwiceBehindCopy(nested, again, mode, s);
      }
    }
  }

  lemma {:induction false} TwiceRemainder(nested: bool, again: bool, mode: Mode, s: string)
    requires s != ""
    ensures var rest := Remainder(nested, mode, s);
            Strip(again, After(NextMode(nested, mode, s[0], CharAt(s, 1))), rest) == rest
    decreases |s|, 0
  {
    var n := TokenLength(nested, mode, s[0], CharAt(s, 1));
    StripTwice(nested, again, NextMode(nested, mode, s[0], CharAt(s, 1)), s[n..]);
  }

  /** No comment starts in the output where none starts in the source. */
  lemma StaysCode(nested: bool, s: string)
    requires s != "" && TokenLength(nested, InCode, s[0], CharAt(s, 1)) == 1
    ensures var r := Strip(nested, InCode, s); r != "" && TokenLength(nested, InCode, r[0], CharAt(r, 1)) == 1
  {
    StripKeepsPositions(nested, InCode, s);
  }

  lemma StripIdempotent(nested: bool, again: bool, s: string)
    ensures var r := Strip(nested, InCode, s); Strip(again, InCode, r) == r
  {
    StripTwice(nested, again, InCode, s);
  }
}
