/** Written forms of cfg expressions: the parser accepts exactly the texts that have one. */
module CfgLayout {
  import opened Wrappers
  import opened CfgParsing

  /** One way to write an expression: where the space goes, and whether the last argument is followed by a comma. */
  datatype Layout =
    | Word(before: string, name: string)
    | Pair(before: string, key: string, beforeEq: string, afterEq: string, value: string)
    | Call(before: string, name: string, beforeParen: string, arguments: ArgumentList)

  /** The arguments behind an opening parenthesis: each with the space behind it, then the closing parenthesis. */
  datatype ArgumentList =
    | Last(only: Layout, after: string)
    | Trailing(last: Layout, after: string, inner: string)
    | More(first: Layout, after: string, rest: ArgumentList)

  predicate Space(s: string) {
    forall i :: 0 <= i < |s| ==> IsSpace(s[i])
  }

  predicate Name(s: string) {
    s != "" && forall i :: 0 <= i < |s| ==> IsWord(s[i])
  }

  predicate Ascii(s: string) {
    forall i :: 0 <= i < |s| ==> IsAscii(s[i])
  }

  predicate WellFormed(l: Layout) {
    match l
    case Word(before, name) => Space(before) && Name(name)
    case Pair(before, key, b, a, value) => Space(before) && Name(key) && Space(b) && Space(a) && Ascii(value)
    case Call(before, name, b, arguments) =>
      Space(before) && Space(b) && WellFormedList(arguments) &&
      (name == "all" || name == "any" || (name == "not" && !arguments.More?))
  }

  predicate WellFormedList(a: ArgumentList) {
    match a
    case Last(only, after) => WellFormed(only) && Space(after)
    case Trailing(last, after, inner) => WellFormed(last) && Space(after) && Space(inner)
    case More(first, after, rest) => WellFormed(first) && Space(after) && WellFormedList(rest)
  }

  /** Quotes and backslashes are escaped, nothing else is. */
  function Escape(s: string): string {
    if s == "" then ""
    else (if s[0] == '"' || s[0] == '\\' then ['\\', s[0]] else [s[0]]) + Escape(s[1..])
  }

  function Text(l: Layout): string {
    match l
    case Word(before, name) => before + name
    case Pair(before, key, b, a, value) => before + key + b + "=" + a + "\"" + Escape(value) + "\""
    case Call(before, name, b, arguments) => before + name + b + "(" + ListText(arguments)
  }

  function ListText(a: ArgumentList): string {
    match a
    case Last(only, after) => Text(only) + after + ")"
    case Trailing(last, after, inner) => Text(last) + after + "," + inner + ")"
    case More(first, after, rest) => Text(first) + after + "," + ListText(rest)
  }

  /** The expression a layout writes. */
  function Meaning(l: Layout): CfgExpr {
    match l
    case Word(_, name) => Flag(name)
    case Pair(_, key, _, _, value) => Value(key, value)
    case Call(_, name, _, arguments) =>
      if name == "all" then All(ListMeaning(arguments))
      else if name == "any" then Any(ListMeaning(arguments))
      else Not(ListMeaning(arguments)[0])
  }

  function ListMeaning(a: ArgumentList): (r: seq<CfgExpr>)
    ensures |r| >= 1
    ensures !a.More? ==> |r| == 1
  {
    match a
    case Last(only, _) => [Meaning(only)]
    case Trailing(last, _, _) => [Meaning(last)]
    case More(first, _, rest) => [Meaning(first)] + ListMeaning(rest)
  }

  // ----- reading pieces of a written form -----

  lemma {:induction false} SkipOver(space: string, rest: string)
    requires Space(space)
    ensures SkipSpace(space + rest) == SkipSpace(rest)
  {
    if space == "" {
      assert space + rest == rest;
    } else {
      assert (space + rest)[1..] == space[1..] + rest;
      SkipOver(space[1..], rest);
    }
  }

  lemma SkipOverTo(space: string, rest: string)
    requires Space(space) && rest != "" && !IsSpace(rest[0])
    ensures SkipSpace(space + rest) == rest
  {
    SkipOver(space, rest);
  }

  /** Reads the name, whatever follows it that is not part of a word. */
  lemma IdentifierRead(space: string, name: string, rest: string)
    requires Space(space) && Name(name) && (rest == "" || !IsWord(rest[0]))
    ensures Identifier(space + name + rest) == Ok((name, rest))
  {
    assert !IsSpace((name + rest)[0]);
    SkipOverTo(space, name + rest);
    assert space + name + rest == space + (name + rest);
    WordSpan(name + rest, |name|);
  }

  lemma {:induction false} StringRead(s: string, rest: string)
    requires Ascii(s)
    ensures StringBody(Escape(s) + "\"" + rest) == Ok((s, rest))
  {
    var text := Escape(s) + "\"" + rest;
    if s == "" {
      assert text == "\"" + rest;
    } else {
      StringRead(s[1..], rest);
      var tail := Escape(s[1..]) + "\"" + rest;
      if s[0] == '"' || s[0] == '\\' {
        assert text == ['\\', s[0]] + tail;
        assert text[2..] == tail;
      } else {
        assert text == [s[0]] + tail;
        assert text[1..] == tail;
      }
      assert s == [s[0]] + s[1..];
    }
  }

  // ----- one step of the grammar at a time -----

  lemma FlagStep(s: string, name: string, behind: string)
    requires Identifier(s) == Ok((name, behind))
    requires !StartsWith(SkipSpace(behind), '=') && !StartsWith(SkipSpace(behind), '(')
    ensures Expression(s) == Ok((Flag(name), SkipSpace(behind)))
  {
  }

  lemma ValueStep(s: string, name: string, behind: string, quoted: string, value: string, rest: string)
    requires Identifier(s) == Ok((name, behind)) && StartsWith(SkipSpace(behind), '=')
    requires QuotedString(SkipSpace(SkipSpace(behind)[1..])) == Ok((value, rest))
    ensures Expression(s) == Ok((Value(name, value), rest))
  {
  }

  lemma CallStep(s: string, name: string, behind: string, arguments: seq<CfgExpr>, e: CfgExpr, rest: string)
    requires Identifier(s) == Ok((name, behind)) && StartsWith(SkipSpace(behind), '(')
    requires Arguments(SkipSpace(behind)[1..]) == Ok((arguments, rest)) && Operator(name, arguments) == Ok(e)
    ensures Expression(s) == Ok((e, rest))
  {
  }

  lemma EndStep(s: string, rest: string)
    requires SkipSpace(s) == ")" + rest
    ensures Arguments(s) == Ok(([], rest))
  {
    assert (")" + rest)[1..] == rest;
  }

  lemma LastStep(s: string, e: CfgExpr, behind: string, rest: string)
    requires !StartsWith(SkipSpace(s), ')')
    requires Expression(SkipSpace(s)) == Ok((e, behind)) && SkipSpace(behind) == ")" + rest
    ensures Arguments(s) == Ok(([e], rest))
  {
    assert (")" + rest)[1..] == rest;
  }

  lemma CommaStep(s: string, e: CfgExpr, behind: string, next: string, others: seq<CfgExpr>, rest: string)
    requires !StartsWith(SkipSpace(s), ')')
    requires Expression(SkipSpace(s)) == Ok((e, behind)) && SkipSpace(behind) == "," + next
    requires Arguments(next) == Ok((others, rest))
    ensures Arguments(s) == Ok(([e] + others, rest))
  {
    assert ("," + next)[1..] == next;
  }

  // ----- every written form is read back -----

  /** The text goes on with a comma or a closing parenthesis. */
  predicate Delimited(rest: string) {
    var t := SkipSpace(rest);
    t != "" && (t[0] == ',' || t[0] == ')')
  }

  lemma DelimitedStart(rest: string)
    requires Delimited(rest)
    ensures rest != "" && !IsWord(rest[0])
  {
  }

  lemma {:induction false} LayoutRead(l: Layout, rest: string)
    requires WellFormed(l) && Delimited(rest)
    ensures Expression(Text(l) + rest).Ok?
    ensures Expression(Text(l) + rest).value.0 == Meaning(l)
    ensures SkipSpace(Expression(Text(l) + rest).value.1) == SkipSpace(rest)
    decreases l, 0
  {
    match l
    case Word(before, name) =>
      DelimitedStart(rest);
      IdentifierRead(before, name, rest);
      FlagStep(Text(l) + rest, name, rest);
    case Pair(before, key, b, a, value) =>
      PairRead(l, rest);
    case Call(before, name, b, arguments) =>
      ListRead(arguments, rest);
      CallRead(l, rest);
  }

  lemma {:induction false} CallRead(l: Layout, rest: string)
    requires l.Call? && WellFormed(l)
    requires Arguments(ListText(l.arguments) + rest) == Ok((ListMeaning(l.arguments), rest))
    ensures Expression(Text(l) + rest) == Ok((Meaning(l), rest))
  {
    hide Expression, Arguments, ListMeaning, ListText;
    var inner := ListText(l.arguments) + rest;
    var behind := l.beforeParen + ("(" + inner);
    assert Text(l) + rest == l.before + l.name + behind;
    assert behind != "" && !IsWord(behind[0]);
    IdentifierRead(l.before, l.name, behind);
    SkipOverTo(l.beforeParen, "(" + inner);
    assert ("(" + inner)[1..] == inner;
    CallStep(Text(l) + rest, l.name, behind, ListMeaning(l.arguments), Meaning(l), rest);
  }

  lemma PairRead(l: Layout, rest: string)
    requires l.Pair? && WellFormed(l)
    ensures Expression(Text(l) + rest) == Ok((Meaning(l), rest))
  {
    var quoted := "\"" + (Escape(l.value) + "\"" + rest);
    var behind := l.beforeEq + ("=" + (l.afterEq + quoted));
    assert Text(l) + rest == l.before + l.key + behind;
    assert behind != "" && !IsWord(behind[0]);
    IdentifierRead(l.before, l.key, behind);
    SkipOverTo(l.beforeEq, "=" + (l.afterEq + quoted));
    assert ("=" + (l.afterEq + quoted))[1..] == l.afterEq + quoted;
    SkipOverTo(l.afterEq, quoted);
    assert quoted[1..] == Escape(l.value) + "\"" + rest;
    StringRead(l.value, rest);
    ValueStep(Text(l) + rest, l.key, behind, quoted, l.value, rest);
  }

  /** Behind its leading space a layout starts with a letter of a name. */
  lemma {:induction false} TextBehindSpace(l: Layout)
    requires WellFormed(l)
    ensures |l.before| < |Text(l)| && Text(l) == l.before + Text(l)[|l.before|..]
    ensures IsWord(Text(l)[|l.before|])
  {
    var t := if l.Pair? then l.key else l.name;
    assert Text(l)[|l.before|] == t[0];
  }

  lemma {:induction false} SkipSpaceOfText(l: Layout, rest: string)
    requires WellFormed(l)
    ensures Expression(SkipSpace(Text(l) + rest)) == Expression(Text(l) + rest)
    ensures !StartsWith(SkipSpace(Text(l) + rest), ')')
  {
    IdentifierSkipsSpace(Text(l) + rest);
    TextBehindSpace(l);
    var tail := Text(l)[|l.before|..];
    Associate(l.before, tail, rest);
    SkipOverTo(l.before, tail + rest);
  }

  lemma {:induction false} ListRead(a: ArgumentList, rest: string)
    requires WellFormedList(a)
    ensures Arguments(ListText(a) + rest) == Ok((ListMeaning(a), rest))
    decreases a, 0
  {
    hide Expression, Arguments, Meaning, Text, WellFormed, SkipSpace;
    match a
    case Last(only, after) =>
      var tail := after + (")" + rest);
      ItemRead(only, after, ")" + rest, ListText(a) + rest);
      LastStep(ListText(a) + rest, Meaning(only), Expression(Text(only) + tail).value.1, rest);
    case Trailing(last, after, inner) =>
      var next := inner + (")" + rest);
      ItemRead(last, after, "," + next, ListText(a) + rest);
      SkipOverTo(inner, ")" + rest);
      EndStep(next, rest);
      assert [Meaning(last)] + [] == [Meaning(last)];
      CommaStep(ListText(a) + rest, Meaning(last), Expression(Text(last) + (after + ("," + next))).value.1, next, [],
                rest);
    case More(first, after, others) =>
      var next := ListText(others) + rest;
      ItemRead(first, after, "," + next, ListText(a) + rest);
      ListRead(others, rest);
      CommaStep(ListText(a) + rest, Meaning(first), Expression(Text(first) + (after + ("," + next))).value.1,
                next, ListMeaning(others), rest);
  }

  /** One argument, the space behind it and the delimiter. */
  lemma {:induction false} ItemRead(l: Layout, after: string, next: string, text: string)
    requires WellFormed(l) && Space(after) && (StartsWith(next, ',') || StartsWith(next, ')'))
    requires text == Text(l) + (after + next)
    ensures !StartsWith(SkipSpace(text), ')')
    ensures Expression(SkipSpace(text)) == Expression(text) && Expression(text).Ok?
    ensures Expression(text).value.0 == Meaning(l) && SkipSpace(Expression(text).value.1) == next
    decreases l, 1
  {
    SkipOverTo(after, next);
    LayoutRead(l, after + next);
    SkipSpaceOfText(l, after + next);
  }

  // ----- every accepted text has a written form -----

  lemma {:induction false} SpaceOf(s: string) returns (space: string)
    ensures Space(space) && s == space + SkipSpace(s)
  {
    if s != "" && IsSpace(s[0]) {
      space := SpaceOf(s[1..]);
      space := [s[0]] + space;
      assert s == [s[0]] + s[1..];
    } else {
      space := "";
    }
  }

  lemma IdentifierShape(s: string) returns (space: string)
    requires Identifier(s).Ok?
    ensures Space(space) && Name(Identifier(s).value.0)
    ensures s == space + Identifier(s).value.0 + Identifier(s).value.1
  {
    space := SpaceOf(s);
  }

  lemma {:induction false} StringShape(s: string)
    requires StringBody(s).Ok?
    ensures Ascii(StringBody(s).value.0)
    ensures s == Escape(StringBody(s).value.0) + "\"" + StringBody(s).value.1
  {
    if s[0] == '"' {
      assert s == "\"" + s[1..];
    } else if s[0] == '\\' {
      StringShape(s[2..]);
      var v := StringBody(s[2..]).value.0;
      assert ([s[1]] + v)[1..] == v;
      assert s == ['\\', s[1]] + s[2..];
    } else {
      StringShape(s[1..]);
      var v := StringBody(s[1..]).value.0;
      assert ([s[0]] + v)[1..] == v;
      assert s == [s[0]] + s[1..];
    }
  }

  /** What was read is written at the front; behind a bare word the parser also skips space. */
  ghost predicate WrittenAs(s: string, e: CfgExpr, rest: string, l: Layout, tail: string) {
    WellFormed(l) && Meaning(l) == e && s == Text(l) + tail && SkipSpace(tail) == SkipSpace(rest)
  }

  lemma PairGrouped(start: string, b: string, a: string, e: string, rest: string)
    ensures start + b + "=" + a + "\"" + e + "\"" + rest == start + (b + ("=" + (a + ("\"" + (e + "\"" + rest)))))
  {
    var behind := "\"" + (e + "\"" + rest);
    Associate(start + b + "=" + a, "\"", e + "\"" + rest);
    Associate(start + b + "=" + a + "\"", e, "\"" + rest);
    Associate(start + b + "=" + a + "\"" + e, "\"", rest);
    Associate(e, "\"", rest);
    Associate(start + b + "=", a, behind);
    Associate(start + b, "=", a + behind);
    Associate(start, b, "=" + (a + behind));
  }

  lemma {:induction false} PairShape(s: string, before: string, name: string, b: string, t: string, v: string,
      rest: string)
    returns (l: Layout)
    requires Space(before) && Name(name) && Space(b) && s == before + name + (b + t) && StartsWith(t, '=')
    requires QuotedString(SkipSpace(t[1..])) == Ok((v, rest))
    ensures WellFormed(l) && Meaning(l) == Value(name, v) && s == Text(l) + rest
  {
    var a := SpaceOf(t[1..]);
    var u := SkipSpace(t[1..]);
    StringShape(u[1..]);
    l := Pair(before, name, b, a, v);
    assert t == "=" + t[1..] && u == "\"" + u[1..];
    PairGrouped(before + name, b, a, Escape(v), rest);
  }

  lemma CallShape(s: string, before: string, name: string, b: string, t: string, written: ArgumentList, rest: string)
    returns (l: Layout)
    requires Space(before) && Space(b) && s == before + name + (b + t) && StartsWith(t, '(')
    requires WellFormedList(written) && t[1..] == ListText(written) + rest
    requires written.More? ==> |ListMeaning(written)| >= 2
    requires Operator(name, ListMeaning(written)).Ok?
    ensures WellFormed(l) && Operator(name, ListMeaning(written)) == Ok(Meaning(l)) && s == Text(l) + rest
  {
    l := Call(before, name, b, written);
    assert t == "(" + t[1..];
    assert Text(l) + rest == before + name + (b + ("(" + (ListText(written) + rest)));
  }

  lemma {:induction false} ExpressionShape(s: string) returns (l: Layout, tail: string)
    requires Expression(s).Ok?
    ensures WrittenAs(s, Expression(s).value.0, Expression(s).value.1, l, tail)
    decreases |s|, 0
  {
    var before := IdentifierShape(s);
    var (name, behind) := Identifier(s).value;
    var b := SpaceOf(behind);
    var t := SkipSpace(behind);
    if StartsWith(t, '=') {
      var (v, rest) := QuotedString(SkipSpace(t[1..])).value;
      l := PairShape(s, before, name, b, t, v, rest);
      tail := rest;
    } else if StartsWith(t, '(') {
      var (arguments, rest) := Arguments(t[1..]).value;
      var written := ArgumentsShape(t[1..]);
      l := CallShape(s, before, name, b, t, written, rest);
      tail := rest;
    } else {
      l, tail := Word(before, name), behind;
    }
  }

  /** The first argument with the space around it, and the delimiter behind it. */
  lemma FirstArgument(s: string, behind: string, l: Layout, tail: string) returns (first: Layout, after: string)
    requires WellFormed(l) && SkipSpace(s) == Text(l) + tail && SkipSpace(tail) == SkipSpace(behind)
    ensures WellFormed(first) && Meaning(first) == Meaning(l) && Space(after)
    ensures s == Text(first) + (after + SkipSpace(behind))
  {
    var lead := SpaceOf(s);
    first := Indented(lead, l, SkipSpace(s), tail);
    after := SpaceOf(tail);
  }

  lemma EmptyRest(s: string, rest: string) returns (inner: string)
    requires Arguments(s) == Ok(([], rest))
    ensures Space(inner) && s == inner + (")" + rest)
  {
    inner := SpaceOf(s);
    NoArguments(s);
  }

  lemma LastText(first: Layout, after: string, rest: string)
    ensures ListText(Last(first, after)) + rest == Text(first) + (after + (")" + rest))
  {
  }

  lemma TrailingText(first: Layout, after: string, inner: string, rest: string)
    ensures ListText(Trailing(first, after, inner)) + rest == Text(first) + (after + ("," + (inner + (")" + rest))))
  {
  }

  lemma MoreText(first: Layout, after: string, more: ArgumentList, rest: string)
    ensures ListText(More(first, after, more)) + rest == Text(first) + (after + ("," + (ListText(more) + rest)))
  {
  }

  /** The parts of a non-empty argument list: its first argument, what is behind it and what is behind the delimiter. */
  ghost predicate Splits(s: string, e: CfgExpr, behind: string, next: string) {
    && Expression(SkipSpace(s)) == Ok((e, behind)) && |SkipSpace(s)| <= |s| && |next| < |s|
    && (Ends(s, e, behind, next) || Continues(s, e, behind, next))
  }

  ghost predicate Ends(s: string, e: CfgExpr, behind: string, next: string) {
    SkipSpace(behind) == ")" + next && Arguments(s) == Ok(([e], next))
  }

  ghost predicate Continues(s: string, e: CfgExpr, behind: string, next: string) {
    && SkipSpace(behind) == "," + next && Arguments(next).Ok?
    && Arguments(s) == Ok(([e] + Arguments(next).value.0, Arguments(next).value.1))
  }

  lemma {:induction false} ArgumentsParts(s: string) returns (e: CfgExpr, behind: string, next: string)
    requires Arguments(s).Ok? && Arguments(s).value.0 != []
    ensures Splits(s, e, behind, next)
  {
    e, behind := Expression(SkipSpace(s)).value.0, Expression(SkipSpace(s)).value.1;
    var u := SkipSpace(behind);
    next := u[1..];
    assert u == [u[0]] + next;
  }

  lemma {:induction false} ArgumentsShape(s: string) returns (a: ArgumentList)
    requires Arguments(s).Ok? && Arguments(s).value.0 != []
    ensures WellFormedList(a) && ListMeaning(a) == Arguments(s).value.0
    ensures s == ListText(a) + Arguments(s).value.1
    ensures a.More? ==> |Arguments(s).value.0| >= 2
    decreases |s|, 1
  {
    var e, behind, next := ArgumentsParts(s);
    var l, tail := ExpressionShape(SkipSpace(s));
    var first, after := FirstArgument(s, behind, l, tail);
    if Ends(s, e, behind, next) {
      a := Last(first, after);
      LastText(first, after, next);
    } else {
      a := ArgumentsShapeMore(s, e, first, after, next);
    }
  }

  lemma {:induction false} ArgumentsShapeMore(s: string, e: CfgExpr, first: Layout, after: string, next: string)
    returns (a: ArgumentList)
    requires |next| < |s| && Arguments(next).Ok?
    requires Arguments(s) == Ok(([e] + Arguments(next).value.0, Arguments(next).value.1))
    requires WellFormed(first) && Meaning(first) == e && Space(after) && s == Text(first) + (after + ("," + next))
    ensures WellFormedList(a) && ListMeaning(a) == Arguments(s).value.0
    ensures s == ListText(a) + Arguments(s).value.1
    ensures a.More? ==> |Arguments(s).value.0| >= 2
    decreases |s|, 0
  {
    var (others, rest) := Arguments(next).value;
    if others == [] {
      var inner := EmptyRest(next, rest);
      a := Trailing(first, after, inner);
      assert [e] + others == [e];
      TrailingText(first, after, inner, rest);
    } else {
      var more := ArgumentsShape(next);
      a := More(first, after, more);
      MoreText(first, after, more, rest);
    }
  }

  lemma NoArguments(s: string)
    requires Arguments(s).Ok? && Arguments(s).value.0 == []
    ensures SkipSpace(s) == ")" + Arguments(s).value.1
  {
  }

  /** Space in front of a written form is part of it. */
  lemma Indented(lead: string, l: Layout, t: string, tail: string) returns (indented: Layout)
    requires Space(lead) && WellFormed(l) && t == Text(l) + tail
    ensures WellFormed(indented) && Meaning(indented) == Meaning(l) && lead + t == Text(indented) + tail
  {
    indented := match l
      case Word(before, name) => Word(lead + before, name)
      case Pair(before, key, b, a, v) => Pair(lead + before, key, b, a, v)
      case Call(before, name, b, arguments) => Call(lead + before, name, b, arguments);
    assert Text(indented) == lead + Text(l);
  }

  // ----- whole conditions -----

  /** A written condition: `cfg` and one expression in parentheses, with space anywhere between. */
  datatype ConditionLayout = ConditionLayout(before: string, beforeParen: string, body: Layout, inner: string,
                                             after: string)

  predicate WellFormedCondition(c: ConditionLayout) {
    Space(c.before) && Space(c.beforeParen) && WellFormed(c.body) && Space(c.inner) && Space(c.after)
  }

  function ConditionText(c: ConditionLayout): string {
    c.before + "cfg" + c.beforeParen + "(" + Text(c.body) + c.inner + ")" + c.after
  }

  lemma ConditionGrouped(c: ConditionLayout)
    ensures ConditionText(c) ==
            c.before + "cfg" + (c.beforeParen + ("(" + (Text(c.body) + (c.inner + (")" + c.after)))))
  {
    var start := c.before + "cfg";
    Associate(start + c.beforeParen + "(" + Text(c.body) + c.inner, ")", c.after);
    Associate(start + c.beforeParen + "(" + Text(c.body), c.inner, ")" + c.after);
    Associate(start + c.beforeParen + "(", Text(c.body), c.inner + (")" + c.after));
    Associate(start + c.beforeParen, "(", Text(c.body) + (c.inner + (")" + c.after)));
    Associate(start, c.beforeParen, "(" + (Text(c.body) + (c.inner + (")" + c.after))));
  }

  /** Reading back what was written. */
  lemma {:induction false} ConditionRoundTrip(c: ConditionLayout)
    requires WellFormedCondition(c)
    ensures Condition(ConditionText(c)) == Ok(Meaning(c.body))
  {
    var closing := c.inner + (")" + c.after);
    var behind := c.beforeParen + ("(" + (Text(c.body) + closing));
    ConditionGrouped(c);
    assert behind != "" && !IsWord(behind[0]);
    IdentifierRead(c.before, "cfg", behind);
    IdentifierSkipsSpace(ConditionText(c));
    SkipOverTo(c.beforeParen, "(" + (Text(c.body) + closing));
    assert ("(" + (Text(c.body) + closing))[1..] == Text(c.body) + closing;
    SkipOverTo(c.inner, ")" + c.after);
    LayoutRead(c.body, closing);
    var rest := Expression(Text(c.body) + closing).value.1;
    assert (")" + c.after)[1..] == c.after;
    assert c.after + "" == c.after;
    SkipOver(c.after, "");
  }

  lemma ClosingShape(s: string, e: CfgExpr) returns (inner: string, after: string)
    requires Closing(s, e).Ok?
    ensures Closing(s, e) == Ok(e) && Space(inner) && Space(after) && s == inner + (")" + after)
    ensures SkipSpace(s) == ")" + after
  {
    inner := SpaceOf(s);
    var u := SkipSpace(s);
    assert u == ")" + u[1..];
    after := SpaceOf(u[1..]);
    assert after + "" == after;
  }

  lemma BodyShape(t: string, e: CfgExpr, rest: string) returns (body: Layout, inner: string, after: string)
    requires Expression(t) == Ok((e, rest)) && Closing(rest, e).Ok?
    ensures WellFormed(body) && Meaning(body) == e && Space(inner) && Space(after)
    ensures t == Text(body) + (inner + (")" + after))
  {
    var tail;
    body, tail := ExpressionShape(t);
    var skipped;
    skipped, after := ClosingShape(rest, e);
    inner := SpaceOf(tail);
  }

  lemma ConditionTextIs(c: ConditionLayout)
    ensures ConditionText(c) ==
            c.before + "cfg" + (c.beforeParen + ("(" + (Text(c.body) + (c.inner + (")" + c.after)))))
  {
  }

  /** The parts of an accepted condition. */
  lemma ConditionParts(s: string) returns (behind: string, t: string, e: CfgExpr, rest: string)
    requires Condition(s).Ok?
    ensures Identifier(s) == Ok(("cfg", behind)) && SkipSpace(behind) == "(" + t
    ensures Expression(t) == Ok((e, rest)) && Closing(rest, e) == Condition(s) == Ok(e)
  {
    IdentifierSkipsSpace(s);
    behind := Identifier(s).value.1;
    var u := SkipSpace(behind);
    t := u[1..];
    assert u == "(" + t;
    e, rest := Expression(t).value.0, Expression(t).value.1;
  }

  lemma ConditionShape(s: string) returns (c: ConditionLayout)
    requires Condition(s).Ok?
    ensures WellFormedCondition(c) && ConditionText(c) == s && Meaning(c.body) == Condition(s).value
  {
    var behind, t, e, rest := ConditionParts(s);
    var before := IdentifierShape(s);
    var beforeParen := SpaceOf(behind);
    var body, inner, after := BodyShape(t, e, rest);
    c := ConditionLayout(before, beforeParen, body, inner, after);
    ConditionTextIs(c);
  }

  /** The parser accepts a text as e exactly when some well-formed written form of e is that text. */
  lemma ConditionExact(s: string, e: CfgExpr)
    ensures Condition(s) == Ok(e) <==>
            exists c :: WellFormedCondition(c) && ConditionText(c) == s && Meaning(c.body) == e
  {
    if Condition(s) == Ok(e) {
      var c := ConditionShape(s);
    }
    if c :| WellFormedCondition(c) && ConditionText(c) == s && Meaning(c.body) == e {
      ConditionRoundTrip(c);
    }
  }
}
