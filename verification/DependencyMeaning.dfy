/** What GN makes of a rendered dependency set: exactly the labels whose condition holds. */
module DependencyMeaning {
  import opened Wrappers
  import opened CfgParsing
  import opened CfgRender
  import opened CfgTranslation
  import opened DependencySets
  import G = GnLanguage

  // ----- escaped strings -----

  lemma {:induction false} ReplaceAppend(a: string, b: string, c: char, sub: string)
    ensures ReplaceChar(a + b, c, sub) == ReplaceChar(a, c, sub) + ReplaceChar(b, c, sub)
  {
    if a == "" {
      assert a + b == b;
    } else {
      assert (a + b)[1..] == a[1..] + b;
      ReplaceAppend(a[1..], b, c, sub);
    }
  }

  function EscapedChar(c: char): string {
    if c == '\\' || c == '$' || c == '"' then ['\\', c] else [c]
  }

  lemma ReplaceOne(c: char, d: char, sub: string)
    ensures ReplaceChar([c], d, sub) == if c == d then sub else [c]
  {
    assert [c][1..] == "";
  }

  lemma ReplaceTwo(c: char, d: char, sub: string)
    requires d != '\\'
    ensures ReplaceChar(['\\', c], d, sub) == ['\\'] + if c == d then sub else [c]
  {
    ReplaceOne('\\', d, sub);
    ReplaceOne(c, d, sub);
    assert ['\\', c] == ['\\'] + [c];
    ReplaceAppend(['\\'], [c], d, sub);
  }

  lemma EscapeAppend(a: string, b: string)
    ensures EscapeGn(a + b) == EscapeGn(a) + EscapeGn(b)
  {
    var a1, b1 := ReplaceChar(a, '\\', "\\\\"), ReplaceChar(b, '\\', "\\\\");
    ReplaceAppend(a, b, '\\', "\\\\");
    ReplaceAppend(a1, b1, '$', "\\$");
    ReplaceAppend(ReplaceChar(a1, '$', "\\$"), ReplaceChar(b1, '$', "\\$"), '"', "\\\"");
  }

  /** The three replacements together escape a character once. */
  lemma EscapeOne(c: char)
    ensures EscapeGn([c]) == EscapedChar(c)
  {
    ReplaceOne(c, '\\', "\\\\");
    if c == '\\' {
      ReplaceTwo('\\', '$', "\\$");
      ReplaceTwo('\\', '"', "\\\"");
    } else {
      ReplaceOne(c, '$', "\\$");
      if c == '$' {
        ReplaceTwo('$', '"', "\\\"");
      } else {
        ReplaceOne(c, '"', "\\\"");
      }
    }
  }

  /** GN reads an escaped string back as the string. */
  lemma {:induction false} EscapedEnd(s: string, rest: string)
    ensures G.StringEnd(EscapeGn(s) + "\"" + rest) == Some((s, rest))
  {
    if s == "" {
      assert EscapeGn(s) + "\"" + rest == "\"" + rest;
      assert ("\"" + rest)[1..] == rest;
    } else {
      EscapedEnd(s[1..], rest);
      var tail := EscapeGn(s[1..]) + "\"" + rest;
      assert s == [s[0]] + s[1..];
      EscapeAppend([s[0]], s[1..]);
      EscapeOne(s[0]);
      assert EscapeGn(s) + "\"" + rest == EscapedChar(s[0]) + tail;
      if EscapedChar(s[0]) == [s[0]] {
        assert ([s[0]] + tail)[1..] == tail;
      } else {
        assert (['\\', s[0]] + tail)[2..] == tail;
      }
    }
  }

  lemma LexQuoted(s: string, rest: string)
    ensures G.Lex("\"" + EscapeGn(s) + "\"" + rest) == G.Before([G.Text(s)], G.Lex(rest))
  {
    var text := "\"" + EscapeGn(s) + "\"" + rest;
    assert text[1..] == EscapeGn(s) + "\"" + rest;
    EscapedEnd(s, rest);
  }

  // ----- tokens of the rendered statements -----

  predicate Blank(s: string) {
    forall i :: 0 <= i < |s| ==> G.IsBlank(s[i])
  }

  lemma {:induction false} LexBlanks(space: string, rest: string)
    requires Blank(space)
    ensures G.Lex(space + rest) == G.Lex(rest)
  {
    if space == "" {
      assert space + rest == rest;
    } else {
      assert (space + rest)[1..] == space[1..] + rest;
      LexBlanks(space[1..], rest);
    }
  }

  function LinesTokens(values: seq<string>): seq<G.Token> {
    if values == [] then [] else [G.Text(values[0]), G.Comma] + LinesTokens(values[1..])
  }

  lemma LineNested(quoted: string, rest: string)
    ensures quoted + "\",\n" + rest == quoted + "\"" + ("," + ("\n" + rest))
  {
    assert "\",\n" == "\"" + "," + "\n";
  }

  lemma LexLine(value: string, rest: string)
    ensures G.Lex("\"" + EscapeGn(value) + "\",\n" + rest) == G.Before([G.Text(value), G.Comma], G.Lex(rest))
  {
    LineNested("\"" + EscapeGn(value), rest);
    LexQuoted(value, "," + ("\n" + rest));
    LexSymbol(',', "\n" + rest);
    LexBlank('\n', rest);
    BeforeBefore([G.Text(value)], [G.Comma], G.Lex(rest));
    assert [G.Text(value)] + [G.Comma] == [G.Text(value), G.Comma];
  }

  lemma {:induction false} LexLines(indent: string, values: seq<string>, rest: string)
    requires Blank(indent)
    ensures G.Lex(Lines(indent, values) + rest) == G.Before(LinesTokens(values), G.Lex(rest))
  {
    if values == [] {
      assert Lines(indent, values) + rest == rest;
      if G.Lex(rest).Some? {
        assert [] + G.Lex(rest).value == G.Lex(rest).value;
      }
    } else {
      var tail := Lines(indent, values[1..]) + rest;
      assert Lines(indent, values) + rest == indent + ("\"" + EscapeGn(values[0]) + "\",\n" + tail);
      LexBlanks(indent, "\"" + EscapeGn(values[0]) + "\",\n" + tail);
      LexLine(values[0], tail);
      LexLines(indent, values[1..], rest);
      BeforeBefore([G.Text(values[0]), G.Comma], LinesTokens(values[1..]), G.Lex(rest));
    }
  }

  /** The operators of list statements. */
  predicate ListOperator(operator: string) {
    operator == "=" || operator == "+="
  }

  function OperatorOf(operator: string): G.Token {
    if operator == "=" then G.Assign else G.PlusAssign
  }

  function LabelTokens(values: seq<string>): seq<G.Token> {
    if |values| == 1 then [G.Text(values[0])] else LinesTokens(values)
  }

  function ListTokens(name: string, operator: string, values: seq<string>): seq<G.Token> {
    [G.Name(name), OperatorOf(operator), G.LBracket] + LabelTokens(values) + [G.RBracket]
  }

  lemma {:induction false} LexOperatorText(operator: string, rest: string)
    requires ListOperator(operator) && (rest == "" || rest[0] != '=')
    ensures G.Lex(operator + rest) == G.Before([OperatorOf(operator)], G.Lex(rest))
  {
    if operator == "=" {
      assert ("=" + rest)[1..] == rest;
    } else {
      LexPair('+', '=', rest);
      assert "+=" + rest == ['+', '='] + rest;
    }
  }

  lemma LexOperatorBracket(operator: string, rest: string)
    requires ListOperator(operator)
    ensures G.Lex(operator + (" [" + rest)) == G.Before([OperatorOf(operator), G.LBracket], G.Lex(rest))
  {
    LexOperatorText(operator, " [" + rest);
    assert " [" + rest == " " + ("[" + rest);
    LexBlank(' ', "[" + rest);
    LexSymbol('[', rest);
    BeforeBefore([OperatorOf(operator)], [G.LBracket], G.Lex(rest));
    assert [OperatorOf(operator)] + [G.LBracket] == [OperatorOf(operator), G.LBracket];
  }

  /** `name = [` and what follows. */
  lemma LexListHead(indent: string, name: string, operator: string, rest: string)
    requires Blank(indent) && IsName(name) && ListOperator(operator)
    ensures G.Lex(indent + (name + (" " + (operator + (" [" + rest))))) ==
            G.Before([G.Name(name), OperatorOf(operator), G.LBracket], G.Lex(rest))
  {
    var tail := operator + (" [" + rest);
    LexOperatorBracket(operator, rest);
    LexBlank(' ', tail);
    LexName(name, " " + tail);
    LexBlanks(indent, name + (" " + tail));
    BeforeBefore([G.Name(name)], [OperatorOf(operator), G.LBracket], G.Lex(rest));
    assert [G.Name(name)] + [OperatorOf(operator), G.LBracket] == [G.Name(name), OperatorOf(operator), G.LBracket];
  }

  lemma {:induction false} LexOneLabel(value: string, rest: string)
    ensures G.Lex(" \"" + EscapeGn(value) + "\" ]\n" + rest) == G.Before([G.Text(value), G.RBracket], G.Lex(rest))
  {
    hide EscapeGn, G.Lex;
    var tail := " " + ("]" + ("\n" + rest));
    assert " \"" + EscapeGn(value) + "\" ]\n" + rest == " " + ("\"" + EscapeGn(value) + "\"" + tail);
    LexBlank(' ', "\"" + EscapeGn(value) + "\"" + tail);
    LexQuoted(value, tail);
    LexBlank(' ', "]" + ("\n" + rest));
    LexSymbol(']', "\n" + rest);
    LexBlank('\n', rest);
    BeforeBefore([G.Text(value)], [G.RBracket], G.Lex(rest));
    assert [G.Text(value)] + [G.RBracket] == [G.Text(value), G.RBracket];
  }

  lemma LexManyLabels(indent: string, values: seq<string>, rest: string)
    requires Blank(indent)
    ensures G.Lex("\n" + (Lines(indent + "  ", values) + (indent + ("]\n" + rest)))) ==
            G.Before(LinesTokens(values) + [G.RBracket], G.Lex(rest))
  {
    var tail := indent + ("]\n" + rest);
    LexBlank('\n', Lines(indent + "  ", values) + tail);
    assert Blank(indent + "  ");
    LexLines(indent + "  ", values, tail);
    LexBlanks(indent, "]\n" + rest);
    assert "]\n" + rest == "]" + ("\n" + rest);
    LexSymbol(']', "\n" + rest);
    LexBlank('\n', rest);
    BeforeBefore(LinesTokens(values), [G.RBracket], G.Lex(rest));
  }

  lemma OneLabelText(indent: string, name: string, operator: string, value: string, rest: string)
    ensures ListText(indent, name, operator, [value]) + rest ==
            indent + (name + (" " + (operator + (" [" + (" \"" + EscapeGn(value) + "\" ]\n" + rest)))))
  {
    assert " [ \"" == " [" + " \"";
  }

  lemma ManyLabelsText(indent: string, name: string, operator: string, values: seq<string>, rest: string)
    requires |values| != 1
    ensures ListText(indent, name, operator, values) + rest ==
            indent + (name +
                      (" " + (operator + (" [" + ("\n" + (Lines(indent + "  ", values) + (indent + ("]\n" + rest))))))))
  {
    var body := Lines(indent + "  ", values);
    var head := indent + name + " " + operator;
    assert ListText(indent, name, operator, values) == head + " [\n" + body + indent + "]\n";
    RightNested(head, " [\n", body, indent, "]\n", rest);
    assert " [\n" == " [" + "\n";
    Associate(" [", "\n", body + (indent + ("]\n" + rest)));
    HeadNested(indent, name, " ", operator, " [" + ("\n" + (body + (indent + ("]\n" + rest)))));
  }

  lemma RightNested(a: string, b: string, c: string, d: string, e: string, rest: string)
    ensures (a + b + c + d + e) + rest == a + (b + (c + (d + (e + rest))))
  {
  }

  lemma HeadNested(a: string, b: string, c: string, d: string, rest: string)
    ensures (a + b + c + d) + rest == a + (b + (c + (d + rest)))
  {
  }

  lemma LexList(indent: string, name: string, operator: string, values: seq<string>, rest: string)
    requires Blank(indent) && IsName(name) && ListOperator(operator)
    ensures G.Lex(ListText(indent, name, operator, values) + rest) ==
            G.Before(ListTokens(name, operator, values), G.Lex(rest))
  {
    var head := [G.Name(name), OperatorOf(operator), G.LBracket];
    if |values| == 1 {
      OneLabelText(indent, name, operator, values[0], rest);
      assert values == [values[0]];
      LexListHead(indent, name, operator, " \"" + EscapeGn(values[0]) + "\" ]\n" + rest);
      LexOneLabel(values[0], rest);
      BeforeBefore(head, [G.Text(values[0]), G.RBracket], G.Lex(rest));
      assert head + [G.Text(values[0]), G.RBracket] == ListTokens(name, operator, values);
    } else {
      ManyLabelsText(indent, name, operator, values, rest);
      LexListHead(indent, name, operator, "\n" + (Lines(indent + "  ", values) + (indent + ("]\n" + rest))));
      LexManyLabels(indent, values, rest);
      BeforeBefore(head, LinesTokens(values) + [G.RBracket], G.Lex(rest));
      assert head + (LinesTokens(values) + [G.RBracket]) == ListTokens(name, operator, values);
    }
  }

  lemma LexEmptyList(name: string, rest: string)
    requires IsName(name)
    ensures G.Lex("  " + name + " = []\n" + rest) == G.Before(ListTokens(name, "=", []), G.Lex(rest))
  {
    assert "  " + name + " = []\n" + rest == "  " + (name + (" " + ("=" + (" [" + ("]" + ("\n" + rest))))));
    LexListHead("  ", name, "=", "]" + ("\n" + rest));
    LexSymbol(']', "\n" + rest);
    LexBlank('\n', rest);
    BeforeBefore([G.Name(name), G.Assign, G.LBracket], [G.RBracket], G.Lex(rest));
    assert [G.Name(name), G.Assign, G.LBracket] + [G.RBracket] == ListTokens(name, "=", []);
  }

  // ----- conditions and blocks -----

  /** The tokens between the parentheses of an `if`. */
  function InnerTokens(s: Shape): seq<G.Token> {
    match s
    case Group(o, parts) => PartsTokens(o, parts)
    case _ => ShapeTokens(s)
  }

  /** The text between the parentheses of an `if`. */
  function InnerText(s: Shape): string {
    match s
    case Group(o, parts) => PartsText(o, parts)
    case _ => ShapeText(s)
  }

  /** Only a group starts with a parenthesis, and then the two around the whole text are a pair. */
  lemma ShapeTextStart(s: Shape)
    requires Regular(s)
    ensures StartsWith(ShapeText(s), '(') <==> s.Group?
  {
    if s.Named? {
      assert G.IsNameChar(s.name[0]);
    }
  }

  function IfTokens(s: Shape): seq<G.Token> {
    [G.Name("if"), G.LParen] + InnerTokens(s) + [G.RParen, G.LBrace]
  }

  lemma LexOpenBrace(rest: string)
    ensures G.Lex(" {\n" + rest) == G.Before([G.LBrace], G.Lex(rest))
  {
    assert " {\n" + rest == " " + ("{" + ("\n" + rest));
    LexBlank(' ', "{" + ("\n" + rest));
    LexSymbol('{', "\n" + rest);
    LexBlank('\n', rest);
  }

  lemma LexIf(s: Shape, rest: string)
    requires Regular(s)
    ensures G.Lex(IfText(ShapeText(s)) + rest) == G.Before(IfTokens(s), G.Lex(rest))
  {
    ShapeTextStart(s);
    var inner := match s case Group(o, parts) => PartsText(o, parts) case _ => ShapeText(s);
    var brace := " {\n" + rest;
    var closing := ")" + brace;
    IfTextNested(s, inner, rest);
    match s {
      case Group(o, parts) => LexParts(o, parts, closing);
      case _ => LexShape(s, closing);
    }
    LexParenthesized(inner, InnerTokens(s), brace);
    LexOpenBrace(rest);
    LexIfWord("(" + inner + ")" + brace);
    IfTokensJoin(InnerTokens(s), G.Lex(rest));
  }

  lemma IfTextNested(s: Shape, inner: string, rest: string)
    requires StartsWith(ShapeText(s), '(') <==> s.Group?
    requires inner == InnerText(s)
    ensures IfText(ShapeText(s)) + rest == "  " + ("if" + (" " + ("(" + inner + ")" + (" {\n" + rest))))
  {
    var c := "(" + inner + ")";
    if s.Group? {
      assert ShapeText(s) == c;
      assert IfText(ShapeText(s)) == "  if " + c + " {\n";
    } else {
      assert "  if (" == "  if " + "(";
      assert IfText(ShapeText(s)) == "  if " + c + " {\n";
    }
    assert "  if " == "  " + "if" + " ";
    HeadNested("  ", "if", " ", c, " {\n" + rest);
  }

  lemma LexIfWord(rest: string)
    ensures G.Lex("  " + ("if" + (" " + rest))) == G.Before([G.Name("if")], G.Lex(rest))
  {
    LexBlanks("  ", "if" + (" " + rest));
    LexName("if", " " + rest);
    LexBlank(' ', rest);
  }

  lemma IfTokensJoin(inner: seq<G.Token>, rest: Option<seq<G.Token>>)
    ensures G.Before([G.Name("if")], G.Before([G.LParen] + inner + [G.RParen], G.Before([G.LBrace], rest))) ==
            G.Before([G.Name("if"), G.LParen] + inner + [G.RParen, G.LBrace], rest)
  {
    BeforeBefore([G.LParen] + inner + [G.RParen], [G.LBrace], rest);
    BeforeBefore([G.Name("if")], [G.LParen] + inner + [G.RParen] + [G.LBrace], rest);
    assert [G.Name("if")] + ([G.LParen] + inner + [G.RParen] + [G.LBrace]) ==
           [G.Name("if"), G.LParen] + inner + [G.RParen, G.LBrace];
  }

  function BlockTokens(name: string, s: Shape, values: seq<string>): seq<G.Token> {
    IfTokens(s) + ListTokens(name, "+=", values) + [G.RBrace]
  }

  lemma BlockTextNested(name: string, condition: string, values: seq<string>, rest: string)
    ensures BlockText(name, condition, values) + rest ==
            IfText(condition) + (ListText("    ", name, "+=", values) + ("  }\n" + rest))
  {
    var head, list := IfText(condition), ListText("    ", name, "+=", values);
    Associate(head, list, "  }\n");
    Associate(head, list + "  }\n", rest);
    Associate(list, "  }\n", rest);
  }

  lemma LexCloseBrace(rest: string)
    ensures G.Lex("  }\n" + rest) == G.Before([G.RBrace], G.Lex(rest))
  {
    assert "  }\n" + rest == "  " + ("}" + ("\n" + rest));
    LexBlanks("  ", "}" + ("\n" + rest));
    LexSymbol('}', "\n" + rest);
    LexBlank('\n', rest);
  }

  lemma LexBlock(name: string, s: Shape, values: seq<string>, rest: string)
    requires IsName(name) && Regular(s)
    ensures G.Lex(BlockText(name, ShapeText(s), values) + rest) == G.Before(BlockTokens(name, s, values), G.Lex(rest))
  {
    var closing := "  }\n" + rest;
    BlockTextNested(name, ShapeText(s), values, rest);
    LexIf(s, ListText("    ", name, "+=", values) + closing);
    LexList("    ", name, "+=", values, closing);
    LexCloseBrace(rest);
    JoinThree(IfTokens(s), ListTokens(name, "+=", values), [G.RBrace], G.Lex(rest));
  }

  lemma JoinThree(a: seq<G.Token>, b: seq<G.Token>, c: seq<G.Token>, rest: Option<seq<G.Token>>)
    ensures G.Before(a, G.Before(b, G.Before(c, rest))) == G.Before(a + b + c, rest)
  {
    BeforeBefore(a, b, G.Before(c, rest));
    BeforeBefore(a + b, c, rest);
  }

  /** Every condition is the text of a regular shape. */
  ghost predicate Shaped(conditions: seq<string>, shapes: map<string, Shape>) {
    forall c :: c in conditions ==> c in shapes && Regular(shapes[c]) && ShapeText(shapes[c]) == c
  }

  function BlocksTokens(
    name: string, conditions: seq<string>, conditional: map<string, seq<string>>, shapes: map<string, Shape>)
    : seq<G.Token>
    requires forall c :: c in conditions ==> c in conditional && c in shapes
  {
    if conditions == [] then []
    else
      BlockTokens(name, shapes[conditions[0]], conditional[conditions[0]]) +
      BlocksTokens(name, conditions[1..], conditional, shapes)
  }

  lemma {:induction false} LexBlocks(
    name: string, conditions: seq<string>, conditional: map<string, seq<string>>, shapes: map<string, Shape>)
    requires IsName(name) && Shaped(conditions, shapes)
    requires forall c :: c in conditions ==> c in conditional
    ensures G.Lex(BlocksText(name, conditions, conditional)) ==
            Some(BlocksTokens(name, conditions, conditional, shapes))
  {
    if conditions != [] {
      var c := conditions[0];
      LexBlocks(name, conditions[1..], conditional, shapes);
      LexBlock(name, shapes[c], conditional[c], BlocksText(name, conditions[1..], conditional));
    }
  }

  // ----- statements -----

  lemma {:induction false} ParseLine(value: string, others: seq<G.Token>)
    requires G.ParseLabels(others).Some?
    ensures var (labels, rest) := G.ParseLabels(others).value;
            G.ParseLabels([G.Text(value), G.Comma] + others) == Some(([value] + labels, rest))
  {
    var ts := [G.Text(value), G.Comma] + others;
    assert ts[1..][0] == G.Comma && ts[2..] == others;
  }

  lemma {:induction false} ParseLines(values: seq<string>, rest: seq<G.Token>)
    ensures G.ParseLabels(LinesTokens(values) + ([G.RBracket] + rest)) == Some((values, rest))
  {
    var tail := [G.RBracket] + rest;
    if values == [] {
      assert LinesTokens(values) + tail == tail && tail[1..] == rest;
    } else {
      var others := LinesTokens(values[1..]) + tail;
      ParseLines(values[1..], rest);
      assert LinesTokens(values) + tail == [G.Text(values[0]), G.Comma] + others;
      ParseLine(values[0], others);
      assert values == [values[0]] + values[1..];
    }
  }

  lemma ParseLabelsBack(values: seq<string>, rest: seq<G.Token>)
    ensures G.ParseLabels(LabelTokens(values) + ([G.RBracket] + rest)) == Some((values, rest))
  {
    if |values| == 1 {
      var ts := LabelTokens(values) + ([G.RBracket] + rest);
      assert ts[1..] == [G.RBracket] + rest && ts[2..] == rest;
      assert values == [values[0]];
    } else {
      ParseLines(values, rest);
    }
  }

  function ListStatement(name: string, operator: string, values: seq<string>): G.Statement {
    if operator == "=" then G.SetList(name, values) else G.AppendList(name, values)
  }

  lemma ParseList(name: string, operator: string, values: seq<string>, rest: seq<G.Token>)
    requires name != "if" && ListOperator(operator)
    ensures G.ParseStatement(ListTokens(name, operator, values) + rest) ==
            Some((ListStatement(name, operator, values), rest))
  {
    var ts := ListTokens(name, operator, values) + rest;
    assert ts[3..] == LabelTokens(values) + ([G.RBracket] + rest);
    ParseLabelsBack(values, rest);
  }

  lemma ParseInner(s: Shape, rest: seq<G.Token>)
    requires Regular(s)
    ensures G.ParseOr(InnerTokens(s) + ([G.RParen] + rest)) == Some((ShapeExpr(s), [G.RParen] + rest))
  {
    match s {
      case Group(o, parts) => ParseGroup(o, parts, rest);
      case _ =>
        ParseShape(s, [G.RParen] + rest);
        EqIsOr(ShapeTokens(s) + ([G.RParen] + rest), ShapeExpr(s), [G.RParen] + rest);
    }
  }

  function BlockStatement(name: string, s: Shape, values: seq<string>): G.Statement {
    G.IfBlock(ShapeExpr(s), [G.AppendList(name, values)])
  }

  lemma ParseBody(name: string, values: seq<string>, rest: seq<G.Token>)
    requires name != "if"
    ensures G.ParseBlock(ListTokens(name, "+=", values) + ([G.RBrace] + rest)) ==
            Some(([G.AppendList(name, values)], rest))
  {
    var tail := [G.RBrace] + rest;
    ParseList(name, "+=", values, tail);
    assert tail[1..] == rest;
    assert G.ParseBlock(tail) == Some(([], rest));
    assert [G.AppendList(name, values)] + [] == [G.AppendList(name, values)];
  }

  lemma IfStep(
    ts: seq<G.Token>, inner: seq<G.Token>, condition: G.Expr, body: seq<G.Token>,
    statements: seq<G.Statement>, rest: seq<G.Token>)
    requires ts == [G.Name("if"), G.LParen] + inner
    requires G.ParseOr(inner) == Some((condition, [G.RParen] + ([G.LBrace] + body)))
    requires G.ParseBlock(body) == Some((statements, rest))
    ensures G.ParseStatement(ts) == Some((G.IfBlock(condition, statements), rest))
  {
    var behind := [G.RParen] + ([G.LBrace] + body);
    assert ts[2..] == inner && behind[2..] == body;
    assert behind[0] == G.RParen && behind[1] == G.LBrace;
  }

  lemma BlockTokensNested(name: string, s: Shape, values: seq<string>, rest: seq<G.Token>)
    ensures BlockTokens(name, s, values) + rest ==
            [G.Name("if"), G.LParen] +
            (InnerTokens(s) + ([G.RParen] + ([G.LBrace] + (ListTokens(name, "+=", values) + ([G.RBrace] + rest)))))
  {
  }

  lemma ParseIfBlock(name: string, s: Shape, values: seq<string>, rest: seq<G.Token>)
    requires name != "if" && Regular(s)
    ensures G.ParseStatement(BlockTokens(name, s, values) + rest) == Some((BlockStatement(name, s, values), rest))
  {
    var body := ListTokens(name, "+=", values) + ([G.RBrace] + rest);
    BlockTokensNested(name, s, values, rest);
    ParseInner(s, [G.LBrace] + body);
    ParseBody(name, values, rest);
    IfStep(BlockTokens(name, s, values) + rest, InnerTokens(s) + ([G.RParen] + ([G.LBrace] + body)), ShapeExpr(s), body,
           [G.AppendList(name, values)], rest);
  }

  function BlocksStatements(
    name: string, conditions: seq<string>, conditional: map<string, seq<string>>, shapes: map<string, Shape>)
    : seq<G.Statement>
    requires forall c :: c in conditions ==> c in conditional && c in shapes
  {
    if conditions == [] then []
    else
      [BlockStatement(name, shapes[conditions[0]], conditional[conditions[0]])] +
      BlocksStatements(name, conditions[1..], conditional, shapes)
  }

  lemma {:induction false} ParseBlocks(
    name: string, conditions: seq<string>, conditional: map<string, seq<string>>, shapes: map<string, Shape>)
    requires name != "if" && Shaped(conditions, shapes)
    requires forall c :: c in conditions ==> c in conditional
    ensures G.ParseFile(BlocksTokens(name, conditions, conditional, shapes)) ==
            Some(BlocksStatements(name, conditions, conditional, shapes))
  {
    if conditions != [] {
      var c := conditions[0];
      ParseBlocks(name, conditions[1..], conditional, shapes);
      ParseIfBlock(name, shapes[c], conditional[c], BlocksTokens(name, conditions[1..], conditional, shapes));
    }
  }

  // ----- execution -----

  /** The conditions have boolean values, as `truth` says. */
  ghost predicate Decided(conditions: seq<string>, shapes: map<string, Shape>, scope: G.Scope, truth: set<string>) {
    forall c :: c in conditions ==> c in shapes && G.Eval(ShapeExpr(shapes[c]), scope) == Some(G.Bool(c in truth))
  }

  /** What the true blocks append. */
  function Appended(conditions: seq<string>, conditional: map<string, seq<string>>,
      truth: set<string>): (r: seq<string>)
    requires forall c :: c in conditions ==> c in conditional
    ensures forall l :: l in r <==> exists c :: c in conditions && c in truth && l in conditional[c]
  {
    if conditions == [] then []
    else
      assert forall c :: c in conditions <==> c == conditions[0] || c in conditions[1..];
      (if conditions[0] in truth then conditional[conditions[0]] else []) +
          Appended(conditions[1..], conditional, truth)
  }

  lemma ExecuteBlock(name: string, s: Shape, values: seq<string>, scope: G.Scope, b: bool, lists: G.Lists)
    requires name in lists && G.Eval(ShapeExpr(s), scope) == Some(G.Bool(b))
    ensures G.Execute(BlockStatement(name, s, values), scope, lists) ==
            Some(lists[name := lists[name] + if b then values else []])
  {
    var body := [G.AppendList(name, values)];
    if b {
      var next := lists[name := lists[name] + values];
      assert G.Execute(body[0], scope, lists) == Some(next);
      assert G.ExecuteAll(body[1..], scope, next) == Some(next);
      assert G.ExecuteAll(body, scope, lists) == Some(next);
    } else {
      assert lists[name] + [] == lists[name];
      assert lists[name := lists[name]] == lists;
    }
  }

  lemma {:induction false} ExecuteBlocks(
    name: string, conditions: seq<string>, conditional: map<string, seq<string>>, shapes: map<string, Shape>,
    scope: G.Scope, truth: set<string>, lists: G.Lists)
    requires forall c :: c in conditions ==> c in conditional
    requires Decided(conditions, shapes, scope, truth) && name in lists
    ensures G.ExecuteAll(BlocksStatements(name, conditions, conditional, shapes), scope, lists) ==
            Some(lists[name := lists[name] + Appended(conditions, conditional, truth)])
    decreases |conditions|
  {
    if conditions == [] {
      assert lists[name] + [] == lists[name];
      assert lists[name := lists[name]] == lists;
    } else {
      var c := conditions[0];
      var added := if c in truth then conditional[c] else [];
      var next := lists[name := lists[name] + added];
      ExecuteBlock(name, shapes[c], conditional[c], scope, c in truth, lists);
      ExecuteBlocks(name, conditions[1..], conditional, shapes, scope, truth, next);
      var others := Appended(conditions[1..], conditional, truth);
      assert (lists[name] + added) + others == lists[name] + (added + others);
      assert next[name := next[name] + others] == lists[name := lists[name] + (added + others)];
    }
  }

  // ----- whole dependency sets -----

  /** The list a dependency set leaves in the variable: the unconditional labels, then those of the true conditions. */
  ghost predicate Yields(text: string, scope: G.Scope, name: string, labels: seq<string>) {
    exists tokens, statements, lists ::
      && G.Lex(text) == Some(tokens) && G.ParseFile(tokens) == Some(statements)
      && G.ExecuteAll(statements, scope, map[]) == Some(lists)
      && labels == if name in lists then lists[name] else []
  }

  lemma LexHead(
    name: string, unconditional: seq<string>, conditions: seq<string>, conditional: map<string, seq<string>>,
    shapes: map<string, Shape>)
    requires IsName(name) && InOrder(conditions, conditional) && Shaped(conditions, shapes)
    requires unconditional != [] || conditional != map[]
    ensures G.Lex(SetText(name, unconditional, conditions, conditional)) ==
            Some(ListTokens(name, "=", unconditional) + BlocksTokens(name, conditions, conditional, shapes))
  {
    var blocks := BlocksText(name, conditions, conditional);
    LexBlocks(name, conditions, conditional, shapes);
    if unconditional != [] {
      LexList("  ", name, "=", unconditional, blocks);
    } else {
      LexEmptyList(name, blocks);
    }
  }

  lemma EmptyYields(name: string, scope: G.Scope)
    ensures Yields("", scope, name, [])
  {
    var none: G.Lists := map[];
    assert G.Lex("") == Some([]) && G.ParseFile([]) == Some([]);
    assert G.ExecuteAll([], scope, none) == Some(none);
  }

  lemma {:induction false} ListYields(
    name: string, unconditional: seq<string>, conditions: seq<string>, conditional: map<string, seq<string>>,
    shapes: map<string, Shape>, scope: G.Scope, truth: set<string>, text: string)
    requires name != "if" && Shaped(conditions, shapes) && Decided(conditions, shapes, scope, truth)
    requires forall c :: c in conditions ==> c in conditional
    requires G.Lex(text) ==
             Some(ListTokens(name, "=", unconditional) + BlocksTokens(name, conditions, conditional, shapes))
    ensures Yields(text, scope, name, unconditional + Appended(conditions, conditional, truth))
  {
    var blocks := BlocksTokens(name, conditions, conditional, shapes);
    ParseList(name, "=", unconditional, blocks);
    ParseBlocks(name, conditions, conditional, shapes);
    var statements := [G.SetList(name, unconditional)] + BlocksStatements(name, conditions, conditional, shapes);
    assert G.ParseFile(ListTokens(name, "=", unconditional) + blocks) == Some(statements);
    ExecuteSet(name, unconditional, conditions, conditional, shapes, scope, truth);
  }

  /** GN, run on the rendered text, ends with the unconditional labels and those whose condition is true. */
  lemma SetTextYields(
    name: string, unconditional: seq<string>, conditions: seq<string>, conditional: map<string, seq<string>>,
    shapes: map<string, Shape>, scope: G.Scope, truth: set<string>)
    requires IsName(name) && name != "if" && InOrder(conditions, conditional)
    requires Shaped(conditions, shapes) && Decided(conditions, shapes, scope, truth)
    ensures Yields(SetText(name, unconditional, conditions, conditional), scope, name,
                   unconditional + Appended(conditions, conditional, truth))
  {
    var text := SetText(name, unconditional, conditions, conditional);
    if unconditional == [] && conditional == map[] {
      ConditionsEmpty(conditions, conditional);
      EmptyYields(name, scope);
    } else {
      LexHead(name, unconditional, conditions, conditional, shapes);
      ListYields(name, unconditional, conditions, conditional, shapes, scope, truth, text);
    }
  }

  lemma ConditionsEmpty(conditions: seq<string>, conditional: map<string, seq<string>>)
    requires InOrder(conditions, conditional)
    ensures conditional == map[] <==> conditions == []
  {
    if conditions != [] {
      assert conditions[0] in conditions;
    } else {
      assert forall c :: c !in conditional;
    }
  }

  lemma ExecuteSet(
    name: string, unconditional: seq<string>, conditions: seq<string>, conditional: map<string, seq<string>>,
    shapes: map<string, Shape>, scope: G.Scope, truth: set<string>)
    requires forall c :: c in conditions ==> c in conditional
    requires Decided(conditions, shapes, scope, truth)
    ensures G.ExecuteAll([G.SetList(name, unconditional)] + BlocksStatements(name, conditions, conditional, shapes),
                         scope, map[]) ==
            Some(map[name := unconditional + Appended(conditions, conditional, truth)])
  {
    var start: G.Lists := map[];
    var set0 := start[name := unconditional];
    var blocks := BlocksStatements(name, conditions, conditional, shapes);
    ExecuteBlocks(name, conditions, conditional, shapes, scope, truth, set0);
    var all := [G.SetList(name, unconditional)] + blocks;
    assert all[1..] == blocks;
    assert set0[name := unconditional + Appended(conditions, conditional, truth)] ==
           map[name := unconditional + Appended(conditions, conditional, truth)];
  }

  // ----- from Cargo conditions -----

  /** The dependency applies: it has no cfg condition, or its cfg condition holds. */
  predicate Applies(d: Mapped, holds: CfgExpr -> bool) {
    match d.target
    case None => true
    case Some(t) => match Condition(t) case Ok(e) => Holds(e, holds) case Err(_) => false
  }

  /** Some dependency of this visibility on the label applies. */
  ghost predicate Applied(ds: seq<Mapped>, public: bool, holds: CfgExpr -> bool, l: string) {
    exists d :: d in ds && d.public == public && d.name == l && Applies(d, holds)
  }

  /** The condition of the dependency is the translation of its cfg text, and both sides agree on the leaves. */
  ghost predicate Translated(d: Mapped, holds: CfgExpr -> bool, scope: G.Scope) {
    match d.target
    case None => d.condition.None?
    case Some(t) =>
      d.condition.Some? && Translate(t) == Ok(d.condition.value) && LeavesAgree(Condition(t).value, holds, scope)
  }

  lemma TranslatedShape(d: Mapped, holds: CfgExpr -> bool, scope: G.Scope) returns (s: Shape)
    requires d.condition.Some? && Translated(d, holds, scope)
    ensures Regular(s) && ShapeText(s) == d.condition.value
    ensures G.Eval(ShapeExpr(s), scope) == Some(G.Bool(Applies(d, holds)))
  {
    var e := Condition(d.target.value).value;
    TranslationMeans(d.target.value, holds, scope);
    RenderIsShape(e);
    ShapeMeans(e, holds, scope);
    s := ShapeOf(e).value;
  }

  /** A shape for every condition that occurs; dependencies with the same condition text apply together. */
  lemma {:induction false} TranslatedShapes(ds: seq<Mapped>, conditions: seq<string>, holds: CfgExpr -> bool,
      scope: G.Scope)
    returns (shapes: map<string, Shape>, truth: set<string>)
    requires forall d :: d in ds ==> Translated(d, holds, scope)
    requires forall c :: c in conditions ==> exists d :: d in ds && d.condition == Some(c)
    ensures Shaped(conditions, shapes) && Decided(conditions, shapes, scope, truth)
  {
    shapes, truth := map[], {};
    for i := 0 to |conditions|
      invariant Shaped(conditions[..i], shapes) && Decided(conditions[..i], shapes, scope, truth)
    {
      var c := conditions[i];
      assert conditions[..i + 1] == conditions[..i] + [c];
      if c !in conditions[..i] {
        assert c in conditions;
        var d :| d in ds && d.condition == Some(c);
        var s := TranslatedShape(d, holds, scope);
        ShapedSnoc(conditions[..i], shapes, scope, truth, c, s, Applies(d, holds));
        shapes := shapes[c := s];
        truth := if Applies(d, holds) then truth + {c} else truth - {c};
      }
    }
    assert conditions[..|conditions|] == conditions;
  }

  lemma ShapedSnoc(
    conditions: seq<string>, shapes: map<string, Shape>, scope: G.Scope, truth: set<string>, c: string, s: Shape,
    b: bool)
    requires Shaped(conditions, shapes) && Decided(conditions, shapes, scope, truth) && c !in conditions
    requires Regular(s) && ShapeText(s) == c && G.Eval(ShapeExpr(s), scope) == Some(G.Bool(b))
    ensures Shaped(conditions + [c], shapes[c := s])
    ensures Decided(conditions + [c], shapes[c := s], scope, if b then truth + {c} else truth - {c})
  {
  }

  lemma TruthIsApplies(
    d: Mapped, c: string, shapes: map<string, Shape>, holds: CfgExpr -> bool, scope: G.Scope, truth: set<string>)
    requires Translated(d, holds, scope) && d.condition == Some(c)
    requires c in shapes && Regular(shapes[c]) && ShapeText(shapes[c]) == c
    requires G.Eval(ShapeExpr(shapes[c]), scope) == Some(G.Bool(c in truth))
    ensures c in truth <==> Applies(d, holds)
  {
    var s := TranslatedShape(d, holds, scope);
    ReadCondition(s);
    ReadCondition(shapes[c]);
  }

  /** The rendered set evaluates to exactly the labels of the dependencies that apply. */
  lemma RenderedDependencies(
    ds: seq<Mapped>, public: bool, name: string, unconditional: seq<string>, conditions: seq<string>,
    conditional: map<string, seq<string>>, holds: CfgExpr -> bool, scope: G.Scope)
    returns (labels: seq<string>)
    requires IsName(name) && name != "if"
    requires IsSplit(ds, public, unconditional, conditional) && InOrder(conditions, conditional)
    requires forall d :: d in ds ==> Translated(d, holds, scope)
    ensures Yields(SetText(name, unconditional, conditions, conditional), scope, name, labels)
    ensures forall l :: l in labels <==> Applied(ds, public, holds, l)
  {
    var shapes, truth := TranslatedShapes(ds, conditions, holds, scope);
    SetTextYields(name, unconditional, conditions, conditional, shapes, scope, truth);
    labels := unconditional + Appended(conditions, conditional, truth);
    forall l ensures l in labels <==> Applied(ds, public, holds, l) {
      if l in labels {
        YieldedApplies(ds, public, unconditional, conditions, conditional, shapes, holds, scope, truth, l);
      }
      if Applied(ds, public, holds, l) {
        AppliesYielded(ds, public, unconditional, conditions, conditional, shapes, holds, scope, truth, l);
      }
    }
  }

  lemma YieldedApplies(
    ds: seq<Mapped>, public: bool, unconditional: seq<string>, conditions: seq<string>,
    conditional: map<string, seq<string>>, shapes: map<string, Shape>, holds: CfgExpr -> bool, scope: G.Scope,
    truth: set<string>, l: string)
    requires IsSplit(ds, public, unconditional, conditional) && InOrder(conditions, conditional)
    requires forall d :: d in ds ==> Translated(d, holds, scope)
    requires Shaped(conditions, shapes) && Decided(conditions, shapes, scope, truth)
    requires l in unconditional || l in Appended(conditions, conditional, truth)
    ensures Applied(ds, public, holds, l)
  {
    if l in unconditional {
      var d :| d in ds && d.public == public && d.condition == None && d.name == l;
      assert Applies(d, holds);
    } else {
      var c :| c in conditions && c in truth && l in conditional[c];
      var d :| d in ds && d.public == public && d.condition == Some(c) && d.name == l;
      TruthIsApplies(d, c, shapes, holds, scope, truth);
    }
  }

  lemma AppliesYielded(
    ds: seq<Mapped>, public: bool, unconditional: seq<string>, conditions: seq<string>,
    conditional: map<string, seq<string>>, shapes: map<string, Shape>, holds: CfgExpr -> bool, scope: G.Scope,
    truth: set<string>, l: string)
    requires IsSplit(ds, public, unconditional, conditional) && InOrder(conditions, conditional)
    requires forall d :: d in ds ==> Translated(d, holds, scope)
    requires Shaped(conditions, shapes) && Decided(conditions, shapes, scope, truth)
    requires Applied(ds, public, holds, l)
    ensures l in unconditional || l in Appended(conditions, conditional, truth)
  {
    var d :| d in ds && d.public == public && d.name == l && Applies(d, holds);
    if d.condition.Some? {
      var c := d.condition.value;
      assert c in conditional && l in conditional[c];
      assert c in conditions;
      TruthIsApplies(d, c, shapes, holds, scope, truth);
    }
  }
}
