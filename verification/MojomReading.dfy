/** Reading a Mojom file from its text, and what is read from a file that is printed from elements. */
module MojomReading {
  import opened Wrappers
  import opened MojomLexing
  import opened MojomPrinting
  import opened MojomElements
  import opened MojomParsing
  import Comments
  import Texts

  datatype MojomError = Lexical(syntax: SyntaxError) | Grammatical(parse: ParseError)

  type Outcome = Result<ParsedMojom, MojomError>

  ghost predicate IsOutcome(tokens: seq<Token>, lineCount: nat, r: Outcome) {
    match r
    case Ok(parsed) => IsParse(tokens, lineCount, Ok(parsed))
    case Err(Grammatical(e)) => IsParse(tokens, lineCount, Err(e))
    case Err(Lexical(_)) => false
  }

  /** The first lexical error on its line, or else what the tokens are parsed as. */
  ghost predicate IsReading(text: string, r: Outcome) {
    var all := Lexemes(text, 0);
    if all.Err? then
      && all.error.start < |text|
      && r == Err(Lexical(SyntaxError(LineAt(text, all.error.start), all.error.reason)))
    else exists tokens :: WithLines(text, all.value, tokens) && IsOutcome(tokens, |Texts.Lines(text)|, r)
  }

  method ReadMojom(text: string) returns (r: Outcome)
    ensures IsReading(text, r)
  {
    hide IsParse, Lexemes;
    var lexed := LexMojom(text);
    if lexed.Err? {
      return Err(Lexical(lexed.error));
    }
    var parsed := ParseMojom(lexed.value, |Texts.Lines(text)|);
    r := match parsed case Ok(p) => Ok(p) case Err(e) => Err(Grammatical(e));
    assert IsOutcome(lexed.value, |Texts.Lines(text)|, r);
  }

  // ----- printed files -----

  function PieceTokens(piece: Piece, line: nat): seq<Token> {
    if piece.TokenPiece? then [Token(piece.kind, line)] else []
  }

  /** The tokens that are printed, each on the line it starts on. */
  function PrintedTokens(pieces: seq<Piece>, line: nat): seq<Token> {
    if pieces == [] then []
    else PieceTokens(pieces[0], line) + PrintedTokens(pieces[1..], line + Comments.Newlines(PieceText(pieces[0])))
  }

  /** The tokens are printed in this order, with any whitespace and comments between them. */
  ghost predicate Prints(pieces: seq<Piece>, ks: seq<Kind>) {
    Good(pieces) && KindsOf(PrintedTokens(pieces, 1)) == ks
  }

  lemma {:induction false} PrintedLines(
    text: string, pieces: seq<Piece>, start: nat, line: nat, tokens: seq<Token>)
    requires start <= |text| && text[start..] == Text(pieces) && line == LineAt(text, start)
    requires WithLines(text, Places(pieces, start), tokens)
    ensures tokens == PrintedTokens(pieces, line)
    decreases |pieces|
  {
    hide LineAt, PieceText, Comments.Newlines, PiecePlaces, PieceTokens;
    if pieces != [] {
      var first := PieceText(pieces[0]);
      var next, here := start + |first|, PiecePlaces(pieces[0], start);
      assert Text(pieces) == first + Text(pieces[1..]);
      assert Places(pieces, start) == here + Places(pieces[1..], next);
      assert PrintedTokens(pieces, line) ==
             PieceTokens(pieces[0], line) + PrintedTokens(pieces[1..], line + Comments.Newlines(first));
      hide WithLines, Text, Places, PrintedTokens;
      TextSplit(text, start, first, Text(pieces[1..]));
      LinesAdd(text, start, |first|);
      LinesSplit(text, here, Places(pieces[1..], next), tokens);
      PieceLines(text, pieces[0], start, line, tokens[..|here|]);
      PrintedLines(text, pieces[1..], next, line + Comments.Newlines(first), tokens[|here|..]);
    }
  }

  lemma TextSplit(text: string, start: nat, first: string, rest: string)
    requires start <= |text| && text[start..] == first + rest
    ensures start + |first| <= |text| && text[start..start + |first|] == first && text[start + |first|..] == rest
  {
    assert text[start..][..|first|] == first && text[start..][|first|..] == rest;
  }

  lemma LinesSplit(text: string, a: seq<Placed>, b: seq<Placed>, tokens: seq<Token>)
    requires WithLines(text, a + b, tokens)
    ensures |tokens| == |a| + |b| && tokens == tokens[..|a|] + tokens[|a|..]
    ensures WithLines(text, a, tokens[..|a|]) && WithLines(text, b, tokens[|a|..])
  {
    hide LineAt;
    assert forall i :: 0 <= i < |a| ==> (a + b)[i] == a[i];
    assert forall i :: 0 <= i < |b| ==> (a + b)[|a| + i] == b[i];
  }

  lemma PieceLines(text: string, piece: Piece, start: nat, line: nat, tokens: seq<Token>)
    requires start <= |text| && line == LineAt(text, start)
    requires WithLines(text, PiecePlaces(piece, start), tokens)
    ensures tokens == PieceTokens(piece, line)
  {
  }

  lemma PrintedOutcome(pieces: seq<Piece>, r: Outcome)
    requires Good(pieces) && IsReading(Text(pieces), r)
    ensures IsOutcome(PrintedTokens(pieces, 1), |Texts.Lines(Text(pieces))|, r)
  {
    hide Good, Places, IsOutcome, Text;
    var text := Text(pieces);
    LexPrinted(pieces, 0);
    var tokens :| WithLines(text, Places(pieces, 0), tokens) && IsOutcome(tokens, |Texts.Lines(text)|, r);
    assert text[0..] == text && LineAt(text, 0) == 1 by {
      assert text[..0] == "";
    }
    PrintedLines(text, pieces, 0, 1, tokens);
  }

  /** Behind good elements the first fault is that of what follows. */
  lemma {:induction false} FaultBehindElements(es: seq<Element>, rest: seq<Kind>, start: nat, named: bool)
    requires AllGood(es) && |ModulesOf(es)| <= if named then 0 else 1
    ensures FirstFault(SpelledAll(es) + rest, start, named) ==
            FirstFault(rest, start + |SpelledAll(es)|, named || ModulesOf(es) != [])
    decreases |es|
  {
    hide FirstFault, ReadElement, GoodElement, Spelled, ModuleOf;
    if es == [] {
      assert SpelledAll(es) + rest == rest;
    } else {
      hide AllGood, SpelledAll, ModulesOf;
      var e, others := es[0], SpelledAll(es[1..]) + rest;
      FirstOfElements(es, rest);
      FaultBehindOne(SpelledAll(es) + rest, e, others, start, named);
      FaultBehindElements(es[1..], rest, start + |Spelled(e)|, named || e.ModuleName?);
    }
  }

  lemma FaultBehindOne(ks: seq<Kind>, e: Element, others: seq<Kind>, start: nat, named: bool)
    requires GoodElement(e) && ks == Spelled(e) + others && !(named && e.ModuleName?)
    ensures FirstFault(ks, start, named) == FirstFault(others, start + |Spelled(e)|, named || e.ModuleName?)
  {
    hide FirstFault, FaultOf, ReadElement, GoodElement, Spelled;
    ReadElementExact(e, others);
    NoFault(e, others, named);
    FaultRead(ks, start, named, e, |Spelled(e)|);
    assert ks[|Spelled(e)|..] == others;
  }

  lemma {:induction false} FirstOfElements(es: seq<Element>, rest: seq<Kind>)
    requires es != [] && AllGood(es)
    ensures GoodElement(es[0]) && AllGood(es[1..])
    ensures SpelledAll(es) + rest == Spelled(es[0]) + (SpelledAll(es[1..]) + rest)
    ensures |SpelledAll(es)| == |Spelled(es[0])| + |SpelledAll(es[1..])|
    ensures |ModulesOf(es)| == (if es[0].ModuleName? then 1 else 0) + |ModulesOf(es[1..])|
  {
    hide AllGood, GoodElement, Spelled, SpelledAll, ModulesOf, ModuleOf;
    assert es == [es[0]] + es[1..];
    GoodTail(es);
    SpelledTail(es);
    ModulesAppend([es[0]], es[1..]);
    ModulesOfOne(es[0]);
    ModuleCount(es[0]);
  }

  lemma GoodTail(es: seq<Element>)
    requires es != [] && AllGood(es)
    ensures GoodElement(es[0]) && AllGood(es[1..])
  {
    hide GoodElement;
  }

  lemma SpelledTail(es: seq<Element>)
    requires es != []
    ensures SpelledAll(es) == Spelled(es[0]) + SpelledAll(es[1..])
  {
  }

  lemma ModuleCount(e: Element)
    ensures |ModuleOf(e)| == if e.ModuleName? then 1 else 0
  {
  }

  lemma NoFault(e: Element, rest: seq<Kind>, named: bool)
    requires GoodElement(e) && ReadElement(Spelled(e) + rest) == Some((e, |Spelled(e)|)) && !(named && e.ModuleName?)
    ensures FaultOf(Spelled(e) + rest, named) == None
  {
    hide ReadElement;
    ModuleFirst(Spelled(e) + rest, e, |Spelled(e)|);
  }

  /** A file that prints good elements with at most one module name is read as their imports and declarations, each on
      the line of its first token. When something follows that no element starts with, or a second module name, that
      is the error, on the line where it starts or, for a body that is not closed, on the last line. */
  lemma PrintedFileRead(pieces: seq<Piece>, es: seq<Element>, rest: seq<Kind>, r: Outcome)
    requires Prints(pieces, SpelledAll(es) + rest) && AllGood(es) && |ModulesOf(es)| <= 1
    requires IsReading(Text(pieces), r)
    ensures rest == [] ==> r.Ok? && Parsed(es, PrintedTokens(pieces, 1), r.value)
    ensures rest != [] && FaultOf(rest, ModulesOf(es) != []).Some? ==>
              var reason := FaultOf(rest, ModulesOf(es) != []).value;
              var lines := |Texts.Lines(Text(pieces))|;
              var line := if reason != UnclosedBody then PrintedTokens(pieces, 1)[|SpelledAll(es)|].line
                          else if lines < 1 then 1 else lines;
              r == Err(Grammatical(ParseError(line, reason)))
  {
    hide Parsed, FaultOf, FirstFault, IsReading, Good, SpelledAll, ModulesOf, Text, PrintedTokens, Elements, AllGood,
         Texts.Lines;
    var named := ModulesOf(es) != [];
    PrintedOutcome(pieces, r);
    FaultBehindElements(es, rest, 0, false);
    if rest == [] {
      assert SpelledAll(es) + rest == SpelledAll(es);
      ElementsExact(SpelledAll(es), es);
    } else if FaultOf(rest, named).Some? {
      FaultNow(rest, |SpelledAll(es)|, named);
    }
  }

  /** A printed file is read exactly when its tokens spell good elements with at most one module name. */
  lemma PrintedFileExact(pieces: seq<Piece>, r: Outcome)
    requires Good(pieces) && IsReading(Text(pieces), r)
    ensures r.Ok? <==> exists es :: Prints(pieces, SpelledAll(es)) && AllGood(es) && |ModulesOf(es)| <= 1
  {
    hide Parsed, IsReading, Good, SpelledAll, ModulesOf, Text, PrintedTokens, Elements, FirstFault;
    var ks := KindsOf(PrintedTokens(pieces, 1));
    PrintedOutcome(pieces, r);
    FaultlessMeans(ks, 0, false);
    if Elements(ks).Some? {
      ElementsExact(ks, Elements(ks).value);
    }
    if es :| Prints(pieces, SpelledAll(es)) && AllGood(es) && |ModulesOf(es)| <= 1 {
      ElementsExact(ks, es);
    }
  }
}
