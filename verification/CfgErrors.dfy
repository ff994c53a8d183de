/** Why a cfg condition is refused before it is rendered: it is unsupported or not well formed. */
module CfgErrors {
  import opened Wrappers
  import opened CfgParsing
  import opened CfgLayout

  /** Words are ASCII letters, digits and underscores, and space is any of five characters. */
  lemma Alphabets(c: char)
    ensures IsWord(c) <==>
            var n := c as int; 48 <= n < 48 + 10 || 65 <= n < 65 + 26 || n == 95 || 97 <= n < 97 + 26
    ensures IsSpace(c) <==> c as int in {9, 10, 12, 13, 32}
    ensures IsAscii(c) <==> c as int <= 0x7f
  {
  }

  const OPERATORS: set<string> := {"all", "any", "not"}

  /** A name with a parenthesis behind it that is not an operator. */
  ghost predicate UnknownCall(s: string) {
    exists name, gap, rest :: s == name + gap + "(" + rest && Name(name) && Space(gap) && name !in OPERATORS
  }

  /** Somewhere in the text. */
  ghost predicate HasUnknownCall(s: string) {
    exists k :: 0 <= k <= |s| && UnknownCall(s[k..])
  }

  lemma UnknownBehind(front: string, s: string)
    requires HasUnknownCall(s)
    ensures HasUnknownCall(front + s)
  {
    var k :| 0 <= k <= |s| && UnknownCall(s[k..]);
    assert (front + s)[|front| + k..] == s[k..];
  }

  lemma UnknownHere(s: string, name: string, behind: string)
    requires Identifier(s) == Ok((name, behind)) && StartsWith(SkipSpace(behind), '(') && name !in OPERATORS
    ensures HasUnknownCall(s)
  {
    var space := IdentifierShape(s);
    var gap := SpaceOf(behind);
    var rest := SkipSpace(behind)[1..];
    var call := name + behind;
    assert call == name + gap + "(" + rest;
    assert call[0..] == call && UnknownCall(call[0..]);
    UnknownBehind(space, call);
    assert s == space + call;
  }

  lemma UnknownInside(s: string, name: string, behind: string, t: string)
    requires Identifier(s) == Ok((name, behind)) && t == SkipSpace(behind) && StartsWith(t, '(')
    requires HasUnknownCall(t[1..])
    ensures HasUnknownCall(s)
  {
    hide HasUnknownCall, Identifier, SkipSpace, Space, Name;
    var space := IdentifierShape(s);
    var gap := SpaceOf(behind);
    UnknownBehind(space + name + gap + "(", t[1..]);
    assert s == space + name + gap + "(" + t[1..];
  }

  /** The arguments are unsupported, or they are read and the name is no operator. */
  lemma ExpressionParts(s: string, name: string, behind: string, t: string)
    requires Expression(s) == Err(Unsupported)
    requires Identifier(s) == Ok((name, behind)) && t == SkipSpace(behind)
    ensures StartsWith(t, '(')
    ensures Arguments(t[1..]) == Err(Unsupported) || (Arguments(t[1..]).Ok? && name !in OPERATORS)
  {
    hide Identifier, Arguments, QuotedString, SkipSpace;
    if StartsWith(t, '=') {
      NoStringUnsupported(SkipSpace(t[1..]));
    }
  }

  lemma IdentifierRefused(s: string)
    requires Expression(s) == Err(Unsupported)
    ensures Identifier(s).Ok?
  {
    hide SkipSpace, CfgParsing.Word, Arguments, QuotedString;
  }

  lemma {:induction false} ExpressionUnsupported(s: string)
    requires Expression(s) == Err(Unsupported)
    ensures HasUnknownCall(s)
    decreases |s|, 0
  {
    IdentifierRefused(s);
    hide HasUnknownCall, Expression, Arguments, Identifier, SkipSpace, Name;
    var (name, behind) := Identifier(s).value;
    var t := SkipSpace(behind);
    ExpressionParts(s, name, behind, t);
    if Arguments(t[1..]).Err? {
      ArgumentsUnsupported(t[1..]);
      UnknownInside(s, name, behind, t);
    } else {
      UnknownHere(s, name, behind);
    }
  }

  lemma {:induction false} NoStringUnsupported(s: string)
    ensures QuotedString(s) != Err(Unsupported)
  {
    if StartsWith(s, '"') {
      NoBodyUnsupported(s[1..]);
    }
  }

  lemma {:induction false} NoBodyUnsupported(s: string)
    ensures StringBody(s) != Err(Unsupported)
    decreases |s|
  {
    if |s| >= 2 && s[0] == '\\' {
      NoBodyUnsupported(s[2..]);
    } else if s != "" {
      NoBodyUnsupported(s[1..]);
    }
  }

  /** The first argument is unsupported, or it is read and the others are. */
  lemma ArgumentsParts(s: string, t: string, u: string)
    requires Arguments(s) == Err(Unsupported) && t == SkipSpace(s)
    requires Expression(t).Ok? ==> u == SkipSpace(Expression(t).value.1)
    ensures Expression(t) == Err(Unsupported) ||
            (Expression(t).Ok? && u != "" && Arguments(u[1..]) == Err(Unsupported))
  {
    hide Expression, SkipSpace;
  }

  lemma UnknownNext(s: string, t: string, first: string, behind: string, u: string)
    requires t == SkipSpace(s) && t == first + behind && u == SkipSpace(behind)
    requires u != "" && HasUnknownCall(u[1..])
    ensures HasUnknownCall(s)
  {
    hide HasUnknownCall, SkipSpace, Space;
    var space := SpaceOf(s);
    var gap := SpaceOf(behind);
    UnknownBehind(space + first + gap + [u[0]], u[1..]);
    assert s == space + first + gap + [u[0]] + u[1..];
  }

  lemma {:induction false} ArgumentsUnsupported(s: string)
    requires Arguments(s) == Err(Unsupported)
    ensures HasUnknownCall(s)
    decreases |s|, 1
  {
    hide HasUnknownCall, Expression, Arguments, Text, WellFormed, Meaning, SkipSpace, Space;
    var space := SpaceOf(s);
    var t := SkipSpace(s);
    var u := if Expression(t).Ok? then SkipSpace(Expression(t).value.1) else "";
    ArgumentsParts(s, t, u);
    if Expression(t).Err? {
      ExpressionUnsupported(t);
      UnknownBehind(space, t);
    } else {
      ArgumentsUnsupported(u[1..]);
      var l, tail := ExpressionShape(t);
      UnknownNext(s, t, Text(l), tail, u);
    }
  }

  /** The first word of the text and what follows it. */
  ghost predicate FirstWord(s: string, word: string) {
    exists space, rest :: s == space + word + rest && Space(space) && Name(word) && (rest == "" || !IsWord(rest[0]))
  }

  lemma FirstWordRead(s: string, word: string)
    requires FirstWord(s, word)
    ensures Identifier(s).Ok? && Identifier(s).value.0 == word
  {
    var space, rest :| s == space + word + rest && Space(space) && Name(word) && (rest == "" || !IsWord(rest[0]));
    IdentifierRead(space, word, rest);
  }

  lemma FirstWordOf(s: string)
    requires Identifier(s).Ok?
    ensures FirstWord(s, Identifier(s).value.0)
  {
    var space := IdentifierShape(s);
  }

  /** A condition is refused as unsupported only when its first word is not `cfg` or it calls something that is no
      operator; in the first case it always is. */
  lemma ConditionUnsupported(s: string)
    ensures Condition(s) == Err(Unsupported) ==>
              (exists word :: word != "cfg" && FirstWord(s, word)) || HasUnknownCall(s)
    ensures (exists word :: word != "cfg" && FirstWord(s, word)) ==> Condition(s) == Err(Unsupported)
  {
    hide HasUnknownCall, FirstWord, Expression, IsSpace, IsWord;
    IdentifierSkipsSpace(s);
    if word :| word != "cfg" && FirstWord(s, word) {
      FirstWordRead(s, word);
    } else if Condition(s) == Err(Unsupported) {
      var (name, behind) := Identifier(s).value;
      FirstWordOf(s);
      assert name == "cfg";
      var t := SkipSpace(behind);
      if Expression(t[1..]) == Err(Unsupported) {
        ExpressionUnsupported(t[1..]);
        var space := IdentifierShape(s);
        var gap := SpaceOf(behind);
        UnknownBehind(space + name + gap + "(", t[1..]);
        assert s == space + name + gap + "(" + t[1..];
      }
    }
  }

  // ----- what is well formed but unsupported -----

  /** A call with well-formed arguments is unsupported when its name is no operator, whatever follows it. */
  lemma UnknownCallRead(before: string, name: string, b: string, arguments: ArgumentList, rest: string)
    requires Space(before) && Name(name) && Space(b) && WellFormedList(arguments)
    ensures var text := before + name + (b + ("(" + (ListText(arguments) + rest)));
            && (name !in OPERATORS ==> Expression(text) == Err(Unsupported))
            && (name == "not" && arguments.More? ==> Expression(text) == Err(Syntax))
  {
    var inner := ListText(arguments) + rest;
    var behind := b + ("(" + inner);
    ListRead(arguments, rest);
    assert behind != "" && !IsWord(behind[0]);
    IdentifierRead(before, name, behind);
    SkipOverTo(b, "(" + inner);
    assert ("(" + inner)[1..] == inner;
    MeaningSize(arguments);
    CallFails(before + name + behind, name, behind, ListMeaning(arguments), rest);
  }

  lemma MeaningSize(a: ArgumentList)
    ensures a.More? ==> |ListMeaning(a)| >= 2
  {
  }

  lemma CallFails(s: string, name: string, behind: string, arguments: seq<CfgExpr>, rest: string)
    requires Identifier(s) == Ok((name, behind)) && StartsWith(SkipSpace(behind), '(')
    requires Arguments(SkipSpace(behind)[1..]) == Ok((arguments, rest)) && arguments != []
    ensures name !in OPERATORS ==> Expression(s) == Err(Unsupported)
    ensures name == "not" && |arguments| >= 2 ==> Expression(s) == Err(Syntax)
  {
  }

  /** In a condition such a call is unsupported, and so is nothing else written the same way. */
  lemma UnknownCallRefused(before: string, beforeParen: string, lead: string, name: string, b: string,
      arguments: ArgumentList, rest: string)
    requires Space(before) && Space(beforeParen) && Space(lead) && Name(name) && Space(b) && WellFormedList(arguments)
    requires name !in OPERATORS
    ensures Condition(before + "cfg" +
                      (beforeParen + ("(" + (lead + name + (b + ("(" + (ListText(arguments) + rest))))))) ==
            Err(Unsupported)
  {
    var body := lead + name + (b + ("(" + (ListText(arguments) + rest)));
    UnknownCallRead(lead, name, b, arguments, rest);
    hide Expression;
    var behind := beforeParen + ("(" + body);
    assert behind != "" && !IsWord(behind[0]);
    IdentifierRead(before, "cfg", behind);
    IdentifierSkipsSpace(before + "cfg" + behind);
    SkipOverTo(beforeParen, "(" + body);
    assert ("(" + body)[1..] == body;
  }
}
