/**
 * The tokens of a Mojom file with their lines. A text is the list of its UTF-8 bytes, each a character of that code.
 */
module MojomLexing {
  import opened Wrappers
  import opened Comments

  datatype Kind = Ident(name: string) | Literal(value: string) | Punct(c: char)

  datatype Token = Token(kind: Kind, line: nat)

  datatype Reason =
    | UnterminatedComment | UnterminatedEscape | UnsupportedEscape | NewlineInString | UnterminatedString

  datatype SyntaxError = SyntaxError(line: nat, reason: Reason)

  predicate IsAlphabetic(c: char) {
    'a' <= c <= 'z' || 'A' <= c <= 'Z'
  }

  predicate StartsIdent(c: char) {
    IsAlphabetic(c) || c == '_'
  }

  predicate IsIdentChar(c: char) {
    StartsIdent(c) || '0' <= c <= '9'
  }

  predicate IsSpace(c: char) {
    c == ' ' || c == '\t' || c == '\r' || c == '\n'
  }

  // ----- what is at the start of a text -----

  function IdentSpan(s: string): (n: nat)
    ensures n <= |s| && (forall i :: 0 <= i < n ==> IsIdentChar(s[i])) && (n < |s| ==> !IsIdentChar(s[n]))
  {
    if s != "" && IsIdentChar(s[0]) then 1 + IdentSpan(s[1..]) else 0
  }

  function LineSpan(s: string): (n: nat)
    ensures n <= |s| && (forall i :: 0 <= i < n ==> s[i] != '\n') && (n < |s| ==> s[n] == '\n')
  {
    if s != "" && s[0] != '\n' then 1 + LineSpan(s[1..]) else 0
  }

  /** The length of a block comment behind its start, up to and including the first end mark. */
  function BlockSpan(s: string): (n: Option<nat>)
    ensures n.Some? ==> 2 <= n.value <= |s|
  {
    if s == "" then None
    else if s[0] == '*' && CharAt(s, 1) == Some('/') then Some(2)
    else
      match BlockSpan(s[1..])
      case Some(n) => Some(n + 1)
      case None => None
  }

  function Unescape(c: char): Option<char> {
    match c
    case '"' => Some('"')
    case '\\' => Some('\\')
    case 'n' => Some('\n')
    case 'r' => Some('\r')
    case 't' => Some('\t')
    case _ => None
  }

  /** The value of a string behind its opening quote and the length up to its closing quote. */
  function StringSpan(s: string): (r: Result<(string, nat), Reason>)
    ensures r.Ok? ==> 1 <= r.value.1 <= |s|
  {
    if s == "" then Err(UnterminatedString)
    else if s[0] == '"' then Ok(("", 1))
    else if s[0] == '\\' then
      if |s| < 2 then Err(UnterminatedEscape)
      else if Unescape(s[1]).None? then Err(UnsupportedEscape)
      else Longer(Unescape(s[1]).value, 2, StringSpan(s[2..]))
    else if s[0] == '\n' then Err(NewlineInString)
    else Longer(s[0], 1, StringSpan(s[1..]))
  }

  function Longer(c: char, n: nat, r: Result<(string, nat), Reason>): Result<(string, nat), Reason> {
    match r
    case Ok((value, length)) => Ok(([c] + value, length + n))
    case Err(e) => Err(e)
  }

  datatype Lexeme = Skip(n: nat) | Emit(kind: Kind, n: nat) | Fail(reason: Reason)

  function Next(s: string): (l: Lexeme)
    requires s != ""
    ensures l.Skip? || l.Emit? ==> 1 <= l.n <= |s|
  {
    if IsSpace(s[0]) then Skip(1)
    else if s[0] == '/' && CharAt(s, 1) == Some('/') then Skip(2 + LineSpan(s[2..]))
    else if s[0] == '/' && CharAt(s, 1) == Some('*') then
      match BlockSpan(s[2..])
      case Some(n) => Skip(2 + n)
      case None => Fail(UnterminatedComment)
    else if s[0] == '"' then
      match StringSpan(s[1..])
      case Ok((value, n)) => Emit(Literal(value), 1 + n)
      case Err(reason) => Fail(reason)
    else if StartsIdent(s[0]) then Emit(Ident(s[..IdentSpan(s)]), IdentSpan(s))
    else Emit(Punct(s[0]), 1)
  }

  lemma NextWord(s: string)
    requires s != "" && StartsIdent(s[0])
    ensures Next(s) == Emit(Ident(s[..IdentSpan(s)]), IdentSpan(s))
  {
  }

  lemma NextQuoted(s: string, value: string, n: nat)
    requires s != "" && s[0] == '"' && StringSpan(s[1..]) == Ok((value, n))
    ensures Next(s) == Emit(Literal(value), 1 + n)
  {
  }

  lemma NextPunct(s: string)
    requires s != "" && !IsSpace(s[0]) && s[0] != '"' && !StartsIdent(s[0])
    requires !(s[0] == '/' && (CharAt(s, 1) == Some('/') || CharAt(s, 1) == Some('*')))
    ensures Next(s) == Emit(Punct(s[0]), 1)
  {
  }

  lemma NextLineComment(s: string)
    requires |s| >= 2 && s[0] == '/' && s[1] == '/'
    ensures Next(s) == Skip(2 + LineSpan(s[2..]))
  {
  }

  lemma NextBlockComment(s: string, n: nat)
    requires |s| >= 2 && s[0] == '/' && s[1] == '*' && BlockSpan(s[2..]) == Some(n)
    ensures Next(s) == Skip(2 + n)
  {
  }

  // ----- all tokens, with positions instead of lines -----

  datatype Placed = Placed(kind: Kind, start: nat)

  datatype Failure = Failure(start: nat, reason: Reason)

  function Lexemes(s: string, start: nat): Result<seq<Placed>, Failure>
    decreases |s|
  {
    if s == "" then Ok([])
    else
      match Next(s)
      case Skip(n) => Lexemes(s[n..], start + n)
      case Emit(kind, n) => Behind([Placed(kind, start)], Lexemes(s[n..], start + n))
      case Fail(reason) => Err(Failure(start, reason))
  }

  function Behind(done: seq<Placed>, r: Result<seq<Placed>, Failure>): Result<seq<Placed>, Failure> {
    match r
    case Ok(rest) => Ok(done + rest)
    case Err(e) => Err(e)
  }

  /** One more than the line feeds before the position. */
  function LineAt(text: string, start: nat): nat
    requires start <= |text|
  {
    1 + Newlines(text[..start])
  }

  ghost predicate WithLines(text: string, placed: seq<Placed>, tokens: seq<Token>) {
    && |tokens| == |placed|
    && forall i :: 0 <= i < |tokens| ==>
         placed[i].start < |text| && tokens[i] == Token(placed[i].kind, LineAt(text, placed[i].start))
  }

  lemma {:induction false} NewlinesAppend(a: string, b: string)
    ensures Newlines(a + b) == Newlines(a) + Newlines(b)
  {
    if a == "" {
      assert a + b == b;
    } else {
      assert (a + b)[1..] == a[1..] + b;
      NewlinesAppend(a[1..], b);
    }
  }

  lemma {:induction false} NoNewlines(s: string)
    requires forall i :: 0 <= i < |s| ==> s[i] != '\n'
    ensures Newlines(s) == 0
  {
    if s != "" {
      NoNewlines(s[1..]);
    }
  }

  lemma LinesAdd(text: string, index: nat, n: nat)
    requires index + n <= |text|
    ensures LineAt(text, index + n) == LineAt(text, index) + Newlines(text[index..index + n])
  {
    assert text[..index + n] == text[..index] + text[index..index + n];
    NewlinesAppend(text[..index], text[index..index + n]);
  }

  lemma SameLine(text: string, index: nat, n: nat)
    requires index + n <= |text| && forall i :: index <= i < index + n ==> text[i] != '\n'
    ensures LineAt(text, index + n) == LineAt(text, index)
  {
    LinesAdd(text, index, n);
    NoNewlines(text[index..index + n]);
  }

  /** A string token is on one line. */
  lemma {:induction false} StringOnOneLine(s: string)
    requires StringSpan(s).Ok?
    ensures forall i :: 0 <= i < StringSpan(s).value.1 ==> s[i] != '\n'
    decreases |s|
  {
    if s[0] == '"' {
    } else if s[0] == '\\' {
      StringOnOneLine(s[2..]);
      assert forall i :: 2 <= i < StringSpan(s).value.1 ==> s[i] == s[2..][i - 2];
    } else {
      StringOnOneLine(s[1..]);
      assert forall i :: 1 <= i < StringSpan(s).value.1 ==> s[i] == s[1..][i - 1];
    }
  }

  // ----- the lexer -----

  method SkipLine(text: string, start: nat) returns (index: nat)
    requires start <= |text|
    ensures index == start + LineSpan(text[start..])
  {
    index := start;
    while index < |text| && text[index] != '\n'
      invariant start <= index <= |text|
      invariant start + LineSpan(text[start..]) == index + LineSpan(text[index..])
    {
      assert text[index..][1..] == text[index + 1..];
      index := index + 1;
    }
  }

  /** Where a span that starts here ends. */
  function Ending(start: nat, span: Option<nat>): Option<nat> {
    match span
    case Some(n) => Some(start + n)
    case None => None
  }

  method SkipBlock(text: string, start: nat, startLine: nat) returns (end: Option<nat>, line: nat)
    requires start <= |text| && startLine == LineAt(text, start)
    ensures end == Ending(start, BlockSpan(text[start..]))
    ensures end.Some? ==> line == LineAt(text, end.value)
  {
    line := startLine;
    var index := start;
    while index < |text|
      invariant start <= index <= |text| && line == LineAt(text, index)
      invariant Ending(start, BlockSpan(text[start..])) == Ending(index, BlockSpan(text[index..]))
    {
      assert text[index..][1..] == text[index + 1..];
      var c, next := text[index], CharAt(text, index + 1);
      LinesAdd(text, index, 1);
      assert text[index..index + 1] == [c] && Newlines([c]) == if c == '\n' then 1 else 0;
      if c == '\n' {
        line := line + 1;
      }
      if c == '*' && next == Some('/') {
        SameLine(text, index, 2);
        return Some(index + 2), line;
      }
      index := index + 1;
    }
    return None, line;
  }

  /** The outcome when the value starts like this and is longer by the given length. */
  function Prefixed(value: string, n: nat, r: Result<(string, nat), Reason>): Result<(string, nat), Reason> {
    match r
    case Ok((rest, length)) => Ok((value + rest, n + length))
    case Err(e) => Err(e)
  }

  lemma PrefixedNothing(r: Result<(string, nat), Reason>)
    ensures Prefixed("", 0, r) == r
  {
    if r.Ok? {
      assert "" + r.value.0 == r.value.0;
    }
  }

  lemma PrefixedLonger(value: string, n: nat, c: char, k: nat, r: Result<(string, nat), Reason>)
    ensures Prefixed(value, n, Longer(c, k, r)) == Prefixed(value + [c], n + k, r)
  {
    if r.Ok? {
      assert value + ([c] + r.value.0) == (value + [c]) + r.value.0;
    }
  }

  lemma StringStep(text: string, index: nat)
    requires index < |text| && text[index] != '"'
    ensures text[index] == '\\' && index + 1 < |text| && Unescape(text[index + 1]).Some? ==>
              StringSpan(text[index..]) == Longer(Unescape(text[index + 1]).value, 2, StringSpan(text[index + 2..]))
    ensures text[index] != '\\' && text[index] != '\n' ==>
              StringSpan(text[index..]) == Longer(text[index], 1, StringSpan(text[index + 1..]))
  {
    var s := text[index..];
    assert s[1..] == text[index + 1..];
    if index + 1 < |text| {
      assert s[2..] == text[index + 2..];
    }
  }

  method LexString(text: string, start: nat) returns (r: Result<(string, nat), Reason>)
    requires start <= |text|
    ensures r == Prefixed("", start, StringSpan(text[start..]))
  {
    var value, index := "", start;
    ghost var whole := StringSpan(text[start..]);
    PrefixedNothing(whole);
    hide Longer, Unescape;
    while index < |text|
      invariant start <= index <= |text|
      invariant whole == Prefixed(value, index - start, StringSpan(text[index..]))
    {
      var c := text[index];
      if c == '"' {
        assert value + "" == value;
        return Ok((value, index + 1));
      }
      StringStep(text, index);
      hide Prefixed, StringSpan;
      if c == '\\' {
        if index + 1 >= |text| {
          return Err(UnterminatedEscape);
        }
        var escaped := Unescape(text[index + 1]);
        if escaped.None? {
          return Err(UnsupportedEscape);
        }
        PrefixedLonger(value, index - start, escaped.value, 2, StringSpan(text[index + 2..]));
        value := value + [escaped.value];
        index := index + 2;
      } else if c == '\n' {
        return Err(NewlineInString);
      } else {
        PrefixedLonger(value, index - start, c, 1, StringSpan(text[index + 1..]));
        value := value + [c];
        index := index + 1;
      }
    }
    return Err(UnterminatedString);
  }

  method LexIdent(text: string, start: nat) returns (index: nat)
    requires start < |text| && StartsIdent(text[start])
    ensures index == start + IdentSpan(text[start..])
  {
    index := start + 1;
    assert text[start..][1..] == text[start + 1..];
    while index < |text| && IsIdentChar(text[index])
      invariant start < index <= |text|
      invariant start + IdentSpan(text[start..]) == index + IdentSpan(text[index..])
    {
      assert text[index..][1..] == text[index + 1..];
      index := index + 1;
    }
  }

  /** The outcome of one step: what is there, and the line behind it. */
  ghost predicate Steps(text: string, index: nat, step: Lexeme, line: nat)
    requires index < |text|
  {
    && step == Next(text[index..])
    && (!step.Fail? ==> index + step.n <= |text| && line == LineAt(text, index + step.n))
  }

  method LexComment(text: string, index: nat, startLine: nat) returns (step: Lexeme, line: nat)
    requires index + 1 < |text| && startLine == LineAt(text, index)
    requires text[index] == '/' && (text[index + 1] == '/' || text[index + 1] == '*')
    ensures Steps(text, index, step, line)
  {
    ghost var s := text[index..];
    assert s[2..] == text[index + 2..];
    line := startLine;
    if text[index + 1] == '/' {
      var end := SkipLine(text, index + 2);
      CommentOnOneLine(text, index, end);
      return Skip(end - index), line;
    }
    SameLine(text, index, 2);
    var end, endLine := SkipBlock(text, index + 2, line);
    if end.None? {
      return Fail(UnterminatedComment), line;
    }
    return Skip(end.value - index), endLine;
  }

  method LexQuoted(text: string, index: nat, line: nat) returns (step: Lexeme)
    requires index < |text| && line == LineAt(text, index) && text[index] == '"'
    ensures Steps(text, index, step, line)
  {
    ghost var s := text[index..];
    assert s[1..] == text[index + 1..];
    var quoted := LexString(text, index + 1);
    if quoted.Err? {
      return Fail(quoted.error);
    }
    StringLine(text, index);
    assert "" + StringSpan(s[1..]).value.0 == StringSpan(s[1..]).value.0;
    return Emit(Literal(quoted.value.0), quoted.value.1 - index);
  }

  method LexWord(text: string, index: nat, line: nat) returns (step: Lexeme)
    requires index < |text| && line == LineAt(text, index) && StartsIdent(text[index])
    ensures Steps(text, index, step, line)
  {
    var end := LexIdent(text, index);
    IdentOnOneLine(text, index, end);
    return Emit(Ident(text[index..end]), end - index);
  }

  method LexOne(text: string, index: nat, startLine: nat) returns (step: Lexeme, line: nat)
    requires index < |text| && startLine == LineAt(text, index)
    ensures Steps(text, index, step, line)
  {
    var c, next := text[index], CharAt(text, index + 1);
    ghost var s := text[index..];
    assert s[0] == c && CharAt(s, 1) == next;
    line := startLine;
    if c == '\n' {
      LineFeed(text, index);
      return Skip(1), line + 1;
    } else if c == ' ' || c == '\t' || c == '\r' {
      SameLine(text, index, 1);
      return Skip(1), line;
    } else if c == '/' && (next == Some('/') || next == Some('*')) {
      step, line := LexComment(text, index, line);
    } else if c == '"' {
      step := LexQuoted(text, index, line);
    } else if StartsIdent(c) {
      step := LexWord(text, index, line);
    } else {
      SameLine(text, index, 1);
      return Emit(Punct(c), 1), line;
    }
  }

  lemma LineFeed(text: string, index: nat)
    requires index < |text| && text[index] == '\n'
    ensures LineAt(text, index + 1) == LineAt(text, index) + 1
  {
    LinesAdd(text, index, 1);
    assert text[index..index + 1] == ['\n'] && Newlines(['\n']) == 1;
  }

  lemma CommentOnOneLine(text: string, index: nat, end: nat)
    requires index + 2 <= |text| && text[index] == '/' && text[index + 1] == '/'
    requires end == index + 2 + LineSpan(text[index + 2..])
    ensures LineAt(text, end) == LineAt(text, index)
  {
    var s := text[index + 2..];
    forall i | index <= i < end ensures text[i] != '\n' {
      if i >= index + 2 {
        assert text[i] == s[i - index - 2];
      }
    }
    SameLine(text, index, end - index);
  }

  lemma StringLine(text: string, index: nat)
    requires index < |text| && text[index] == '"' && StringSpan(text[index + 1..]).Ok?
    ensures var n := StringSpan(text[index + 1..]).value.1;
            index + 1 + n <= |text| && LineAt(text, index + 1 + n) == LineAt(text, index)
  {
    var s, n := text[index + 1..], StringSpan(text[index + 1..]).value.1;
    StringOnOneLine(s);
    forall i | index <= i < index + 1 + n ensures text[i] != '\n' {
      if i > index {
        assert text[i] == s[i - index - 1];
      }
    }
    SameLine(text, index, 1 + n);
  }

  lemma IdentOnOneLine(text: string, index: nat, end: nat)
    requires index < |text| && end == index + IdentSpan(text[index..])
    ensures text[index..end] == text[index..][..end - index]
    ensures LineAt(text, end) == LineAt(text, index)
  {
    var s := text[index..];
    forall i | index <= i < end ensures text[i] != '\n' {
      assert IsIdentChar(s[i - index]);
    }
    SameLine(text, index, end - index);
  }

  /** All the tokens are those found and those of the rest. */
  ghost predicate Progress(all: Result<seq<Placed>, Failure>, text: string, index: nat, placed: seq<Placed>)
    requires index <= |text|
  {
    all == Behind(placed, Lexemes(text[index..], index))
  }

  lemma LexemesUnfold(s: string, start: nat, step: Lexeme)
    requires s != "" && step == Next(s)
    ensures step.Skip? ==> Lexemes(s, start) == Lexemes(s[step.n..], start + step.n)
    ensures step.Emit? ==>
              Lexemes(s, start) == Behind([Placed(step.kind, start)], Lexemes(s[step.n..], start + step.n))
    ensures step.Fail? ==> Lexemes(s, start) == Err(Failure(start, step.reason))
  {
  }

  lemma ProgressStep(
    all: Result<seq<Placed>, Failure>, text: string, index: nat, placed: seq<Placed>, step: Lexeme)
    requires index < |text| && Progress(all, text, index, placed) && step == Next(text[index..])
    requires !step.Fail? ==> index + step.n <= |text|
    ensures step.Skip? ==> Progress(all, text, index + step.n, placed)
    ensures step.Emit? ==> Progress(all, text, index + step.n, placed + [Placed(step.kind, index)])
    ensures step.Fail? ==> all == Err(Failure(index, step.reason))
  {
    var s := text[index..];
    LexemesUnfold(s, index, step);
    if !step.Fail? {
      assert s[step.n..] == text[index + step.n..];
    }
    if step.Emit? {
      BehindTwice(placed, [Placed(step.kind, index)], Lexemes(s[step.n..], index + step.n));
    }
  }

  lemma ProgressStart(text: string)
    ensures Progress(Lexemes(text, 0), text, 0, [])
  {
    assert text[0..] == text;
    EmptyBehind(Lexemes(text, 0));
  }

  lemma ProgressEnd(all: Result<seq<Placed>, Failure>, text: string, placed: seq<Placed>)
    requires Progress(all, text, |text|, placed)
    ensures all == Ok(placed)
  {
    assert text[|text|..] == "" && placed + [] == placed;
  }

  lemma BehindTwice(a: seq<Placed>, b: seq<Placed>, r: Result<seq<Placed>, Failure>)
    ensures Behind(a, Behind(b, r)) == Behind(a + b, r)
  {
    if r.Ok? {
      assert a + (b + r.value) == a + b + r.value;
    }
  }

  /** The same tokens or the same failure, with the lines of the positions. */
  ghost predicate OnLines(text: string, all: Result<seq<Placed>, Failure>, r: Result<seq<Token>, SyntaxError>) {
    match all
    case Ok(placed) => r.Ok? && WithLines(text, placed, r.value)
    case Err(f) => f.start < |text| && r == Err(SyntaxError(LineAt(text, f.start), f.reason))
  }

  /** Every token is on the line counted by the line feeds before it; an error is on the line where its lexeme
      starts. */
  method LexMojom(text: string) returns (r: Result<seq<Token>, SyntaxError>)
    ensures OnLines(text, Lexemes(text, 0), r)
  {
    hide Lexemes;
    var tokens: seq<Token> := [];
    var index, line := 0, 1;
    ghost var placed: seq<Placed> := [];
    ghost var all := Lexemes(text, 0);
    ProgressStart(text);
    assert text[..0] == "";
    while index < |text|
      invariant index <= |text| && line == LineAt(text, index)
      invariant WithLines(text, placed, tokens) && Progress(all, text, index, placed)
    {
      hide LineAt, Progress;
      var step, next := LexOne(text, index, line);
      ProgressStep(all, text, index, placed, step);
      match step {
        case Skip(n) =>
          index, line := index + n, next;
        case Emit(kind, n) =>
          tokens, placed := tokens + [Token(kind, line)], placed + [Placed(kind, index)];
          index, line := index + n, next;
        case Fail(reason) =>
          return Err(SyntaxError(line, reason));
      }
    }
    ProgressEnd(all, text, placed);
    return Ok(tokens);
  }

  lemma EmptyBehind(r: Result<seq<Placed>, Failure>)
    ensures Behind([], r) == r
  {
    if r.Ok? {
      assert [] + r.value == r.value;
    }
  }
}
