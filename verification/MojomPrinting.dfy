/** Printed Mojom tokens, with arbitrary whitespace and comments between them, are lexed back. */
module MojomPrinting {
  import opened Wrappers
  import opened MojomLexing
  import Comments

  /** A piece of a file: what separates tokens, or a token. */
  datatype Piece =
    | Space(c: char)
    | LineComment(text: string)
    | BlockComment(text: string)
    | TokenPiece(kind: Kind)

  function EscapeChar(c: char): string {
    match c
    case '"' => "\\\""
    case '\\' => "\\\\"
    case '\n' => "\\n"
    case '\r' => "\\r"
    case '\t' => "\\t"
    case _ => [c]
  }

  function EscapeAll(value: string): string {
    if value == "" then "" else EscapeChar(value[0]) + EscapeAll(value[1..])
  }

  function KindText(kind: Kind): string {
    match kind
    case Ident(name) => name
    case Literal(value) => "\"" + EscapeAll(value) + "\""
    case Punct(c) => [c]
  }

  function PieceText(piece: Piece): string {
    match piece
    case Space(c) => [c]
    case LineComment(text) => "//" + text
    case BlockComment(text) => "/*" + text + "*/"
    case TokenPiece(kind) => KindText(kind)
  }

  function Text(pieces: seq<Piece>): string {
    if pieces == [] then "" else PieceText(pieces[0]) + Text(pieces[1..])
  }

  // ----- which pieces may stand before a text -----

  predicate IsIdent(name: string) {
    name != "" && StartsIdent(name[0]) && forall i :: 0 <= i < |name| ==> IsIdentChar(name[i])
  }

  predicate GoodKind(kind: Kind, rest: string) {
    match kind
    case Ident(name) => IsIdent(name) && (rest == "" || !IsIdentChar(rest[0]))
    case Literal(_) => true
    case Punct(c) =>
      && !IsSpace(c) && c != '"' && !StartsIdent(c)
      && !(c == '/' && rest != "" && (rest[0] == '/' || rest[0] == '*'))
  }

  /** The comment does not end before its end. */
  predicate NoEndMark(text: string) {
    forall i :: 0 <= i < |text| ==> !(text[i] == '*' && (text + "*/")[i + 1] == '/')
  }

  predicate GoodPiece(piece: Piece, rest: string) {
    match piece
    case Space(c) => IsSpace(c)
    case LineComment(text) => '\n' !in text && (rest == "" || rest[0] == '\n')
    case BlockComment(text) => NoEndMark(text)
    case TokenPiece(kind) => GoodKind(kind, rest)
  }

  predicate Good(pieces: seq<Piece>) {
    pieces == [] || (GoodPiece(pieces[0], Text(pieces[1..])) && Good(pieces[1..]))
  }

  function PiecePlaces(piece: Piece, start: nat): seq<Placed> {
    if piece.TokenPiece? then [Placed(piece.kind, start)] else []
  }

  /** The tokens at the positions where they are printed. */
  function Places(pieces: seq<Piece>, start: nat): seq<Placed> {
    if pieces == [] then []
    else PiecePlaces(pieces[0], start) + Places(pieces[1..], start + |PieceText(pieces[0])|)
  }

  // ----- single pieces -----

  lemma {:induction false} LineSpanExact(text: string, rest: string)
    requires '\n' !in text && (rest == "" || rest[0] == '\n')
    ensures LineSpan(text + rest) == |text|
  {
    if text == "" {
      assert text + rest == rest;
    } else {
      assert (text + rest)[1..] == text[1..] + rest;
      LineSpanExact(text[1..], rest);
    }
  }

  lemma {:induction false} BlockSpanExact(text: string, rest: string)
    requires NoEndMark(text)
    ensures BlockSpan(text + "*/" + rest) == Some(|text| + 2)
  {
    var s := text + "*/" + rest;
    if text == "" {
      assert s[0] == '*' && Comments.CharAt(s, 1) == Some('/');
    } else {
      assert s[1..] == text[1..] + "*/" + rest;
      assert s[1] == (text + "*/")[1];
      forall i | 0 <= i < |text[1..]| ensures !(text[1..][i] == '*' && (text[1..] + "*/")[i + 1] == '/') {
        assert text[1..][i] == text[i + 1] && (text[1..] + "*/")[i + 1] == (text + "*/")[i + 2];
      }
      BlockSpanExact(text[1..], rest);
    }
  }

  lemma {:induction false} IdentSpanExact(name: string, rest: string)
    requires (forall i :: 0 <= i < |name| ==> IsIdentChar(name[i])) && (rest == "" || !IsIdentChar(rest[0]))
    ensures IdentSpan(name + rest) == |name|
  {
    if name == "" {
      assert name + rest == rest;
    } else {
      assert (name + rest)[1..] == name[1..] + rest;
      IdentSpanExact(name[1..], rest);
    }
  }

  lemma StringSpanChar(c: char, tail: string)
    ensures StringSpan(EscapeChar(c) + tail) == Longer(c, |EscapeChar(c)|, StringSpan(tail))
  {
    var s := EscapeChar(c) + tail;
    if |EscapeChar(c)| == 2 {
      assert s[0] == '\\' && s[1] == EscapeChar(c)[1] && s[2..] == tail;
    } else {
      assert s[0] == c && s[1..] == tail;
    }
  }

  lemma {:induction false} StringSpanExact(value: string, rest: string)
    ensures StringSpan(EscapeAll(value) + "\"" + rest) == Ok((value, |EscapeAll(value)| + 1))
  {
    if value == "" {
      assert EscapeAll("") + "\"" == "\"";
      assert ("\"" + rest)[0] == '"';
    } else {
      var tail := EscapeAll(value[1..]) + "\"" + rest;
      StringSpanExact(value[1..], rest);
      Associate(EscapeChar(value[0]), EscapeAll(value[1..]) + "\"", rest);
      Associate(EscapeChar(value[0]), EscapeAll(value[1..]), "\"");
      StringSpanChar(value[0], tail);
      assert value == [value[0]] + value[1..];
    }
  }

  lemma NextPrintedWord(name: string, rest: string)
    requires GoodKind(Ident(name), rest)
    ensures Next(name + rest) == Emit(Ident(name), |name|)
  {
    var s := name + rest;
    IdentSpanExact(name, rest);
    assert s[0] == name[0] && s[..|name|] == name;
    NextWord(s);
  }

  lemma NextPrintedLiteral(value: string, rest: string)
    ensures var text := KindText(Literal(value)); Next(text + rest) == Emit(Literal(value), |text|)
  {
    var s := KindText(Literal(value)) + rest;
    StringSpanExact(value, rest);
    assert s[0] == '"' && s[1..] == EscapeAll(value) + "\"" + rest;
    NextQuoted(s, value, |EscapeAll(value)| + 1);
  }

  lemma NextPrintedPunct(c: char, rest: string)
    requires GoodKind(Punct(c), rest)
    ensures Next([c] + rest) == Emit(Punct(c), 1)
  {
    var s := [c] + rest;
    assert s[0] == c && Comments.CharAt(s, 1) == Comments.CharAt(rest, 0);
    NextPunct(s);
  }

  lemma NextKind(kind: Kind, rest: string)
    requires GoodKind(kind, rest)
    ensures Next(KindText(kind) + rest) == Emit(kind, |KindText(kind)|)
  {
    match kind {
      case Ident(name) => NextPrintedWord(name, rest);
      case Literal(value) => NextPrintedLiteral(value, rest);
      case Punct(c) => NextPrintedPunct(c, rest);
    }
  }

  lemma NextPrintedLine(text: string, rest: string)
    requires GoodPiece(LineComment(text), rest)
    ensures Next("//" + text + rest) == Skip(2 + |text|)
  {
    var s := "//" + text + rest;
    assert s[0] == '/' && s[1] == '/' && s[2..] == text + rest;
    LineSpanExact(text, rest);
    NextLineComment(s);
  }

  lemma NextPrintedBlock(text: string, rest: string)
    requires GoodPiece(BlockComment(text), rest)
    ensures Next("/*" + text + "*/" + rest) == Skip(4 + |text|)
  {
    var s := "/*" + text + "*/" + rest;
    assert s[0] == '/' && s[1] == '*' && s[2..] == text + "*/" + rest;
    BlockSpanExact(text, rest);
    NextBlockComment(s, |text| + 2);
  }

  lemma NextPiece(piece: Piece, rest: string)
    requires GoodPiece(piece, rest)
    ensures PieceText(piece) != ""
    ensures var n := |PieceText(piece)|;
            Next(PieceText(piece) + rest) == if piece.TokenPiece? then Emit(piece.kind, n) else Skip(n)
  {
    match piece {
      case Space(c) => assert ([c] + rest)[0] == c;
      case LineComment(text) => NextPrintedLine(text, rest);
      case BlockComment(text) => NextPrintedBlock(text, rest);
      case TokenPiece(kind) => NextKind(kind, rest);
    }
  }

  // ----- all pieces -----

  lemma LexemesBehind(first: string, rest: string, start: nat, step: Lexeme, places: seq<Placed>)
    requires first != "" && Next(first + rest) == step && !step.Fail? && step.n == |first|
    requires Lexemes(rest, start + |first|) == Ok(places)
    ensures Lexemes(first + rest, start) == Ok((if step.Emit? then [Placed(step.kind, start)] else []) + places)
  {
    LexemesUnfold(first + rest, start, step);
    assert (first + rest)[|first|..] == rest;
    assert [] + places == places;
  }

  lemma LexPiece(piece: Piece, rest: string, start: nat, places: seq<Placed>)
    requires GoodPiece(piece, rest) && Lexemes(rest, start + |PieceText(piece)|) == Ok(places)
    ensures Lexemes(PieceText(piece) + rest, start) == Ok(PiecePlaces(piece, start) + places)
  {
    NextPiece(piece, rest);
    LexemesBehind(PieceText(piece), rest, start, Next(PieceText(piece) + rest), places);
  }

  /** The tokens come back, each at its position and so, by `LexMojom`, on its line. */
  lemma {:induction false} LexPrinted(pieces: seq<Piece>, start: nat)
    requires Good(pieces)
    ensures Lexemes(Text(pieces), start) == Ok(Places(pieces, start))
  {
    hide GoodPiece, PieceText, PiecePlaces;
    if pieces != [] {
      hide Lexemes;
      LexPrinted(pieces[1..], start + |PieceText(pieces[0])|);
      LexPiece(pieces[0], Text(pieces[1..]), start, Places(pieces[1..], start + |PieceText(pieces[0])|));
    }
  }
}
