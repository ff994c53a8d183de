/**
 * Sources as code, literals and comments, and when exactly the comment scan blanks the comments and nothing else.
 * The scan takes every apostrophe for the start of a character literal, also that of a lifetime or a digit separator.
 */
module CommentSegments {
  import opened Wrappers
  import opened Comments

  datatype QuotedChar = Simple(c: char) | Escaped(c: char)

  /** Comments nest like trees. */
  datatype CommentPart = Raw(c: char) | Inner(parts: seq<CommentPart>)

  /** Other text is outside of comments, but not what the scan takes it for: a lifetime, a digit separator, a raw
      string. */
  datatype Segment =
    | Plain(c: char)
    | Quoted(quote: char, body: seq<QuotedChar>)
    | Other(text: string)
    | Line(text: string)
    | Block(parts: seq<CommentPart>)

  predicate IsComment(segment: Segment) {
    segment.Line? || segment.Block?
  }

  function QuotedCharText(q: QuotedChar): string {
    match q
    case Simple(c) => [c]
    case Escaped(c) => ['\\'] + [c]
  }

  function QuotedText(body: seq<QuotedChar>): string {
    if body == [] then "" else QuotedCharText(body[0]) + QuotedText(body[1..])
  }

  function PartText(part: CommentPart): string
    decreases part
  {
    match part
    case Raw(c) => [c]
    case Inner(inner) => "/*" + PartsText(inner) + "*/"
  }

  function PartsText(parts: seq<CommentPart>): string
    decreases parts
  {
    if parts == [] then "" else PartText(parts[0]) + PartsText(parts[1..])
  }

  function SegmentText(segment: Segment): string {
    match segment
    case Plain(c) => [c]
    case Quoted(quote, body) => [quote] + QuotedText(body) + [quote]
    case Other(text) => text
    case Line(text) => "//" + text
    case Block(parts) => "/*" + PartsText(parts) + "*/"
  }

  function Text(segments: seq<Segment>): string {
    if segments == [] then "" else SegmentText(segments[0]) + Text(segments[1..])
  }

  function Blank(s: string): (r: string)
    ensures |r| == |s|
  {
    if s == "" then "" else [BlankChar(s[0])] + Blank(s[1..])
  }

  /** What is outside of comments as it is, comments blanked. */
  function SegmentCleaned(segment: Segment): (r: string)
    ensures |r| == |SegmentText(segment)|
  {
    if IsComment(segment) then Blank(SegmentText(segment)) else SegmentText(segment)
  }

  function Cleaned(segments: seq<Segment>): string {
    if segments == [] then "" else SegmentCleaned(segments[0]) + Cleaned(segments[1..])
  }

  /** No character starts a delimiter together with the one behind it, and only nesting comments contain comments. */
  predicate GoodPart(nested: bool, part: CommentPart, others: string)
    decreases part, 0
  {
    match part
    case Raw(c) => TokenLength(nested, InBlock(1), c, CharAt(others + "*/", 0)) == 1
    case Inner(inner) => nested && GoodParts(nested, inner)
  }

  predicate GoodParts(nested: bool, parts: seq<CommentPart>)
    decreases parts
  {
    parts == [] || (GoodPart(nested, parts[0], PartsText(parts[1..])) && GoodParts(nested, parts[1..]))
  }

  predicate GoodQuoted(quote: char, body: seq<QuotedChar>) {
    forall i :: 0 <= i < |body| && body[i].Simple? ==> body[i].c != quote && body[i].c != '\\'
  }

  predicate GoodSegment(nested: bool, segment: Segment, rest: string) {
    match segment
    case Plain(c) => c != '"' && c != '\'' && TokenLength(nested, InCode, c, CharAt(rest, 0)) == 1
    case Quoted(quote, body) => (quote == '"' || quote == '\'') && GoodQuoted(quote, body)
    case Other(_) => true
    case Line(text) => '\n' !in text && (rest == "" || rest[0] == '\n')
    case Block(parts) => GoodParts(nested, parts)
  }

  predicate Good(nested: bool, segments: seq<Segment>) {
    segments == [] || (GoodSegment(nested, segments[0], Text(segments[1..])) && Good(nested, segments[1..]))
  }

  // ----- text outside of comments -----

  /** In code or in what the scan takes for a literal. */
  type Reading = mode: Mode | !mode.InLine? && !mode.InBlock? witness InCode

  /** Where the scan is behind text in which it finds no comment. */
  function Through(mode: Reading, text: string): Reading
    decreases |text|
  {
    if text == "" then mode else Through(NextMode(false, mode, text[0], None), text[1..])
  }

  /** The scan finds no comment in the text. */
  predicate Passes(mode: Reading, text: string, rest: string)
    decreases |text|
  {
    text == "" ||
    (TokenLength(false, mode, text[0], CharAt(text[1..] + rest, 0)) == 1 &&
     Passes(NextMode(false, mode, text[0], None), text[1..], rest))
  }

  /** The scan is in code at every comment and finds no other comment. */
  predicate Clear(mode: Reading, segments: seq<Segment>)
    decreases |segments|
  {
    segments == [] ||
    if IsComment(segments[0]) then mode == InCode && Clear(InCode, segments[1..])
    else
      var text := SegmentText(segments[0]);
      Passes(mode, text, Text(segments[1..])) && Clear(Through(mode, text), segments[1..])
  }

  lemma ReadStep(nested: bool, mode: Reading, c: char, tail: string)
    requires TokenLength(false, mode, c, CharAt(tail, 0)) == 1
    ensures Strip(nested, mode, [c] + tail) == [c] + Strip(nested, NextMode(false, mode, c, None), tail)
  {
    hide Strip;
    var s := [c] + tail;
    assert CharAt(s, 1) == CharAt(tail, 0) && s[1..] == tail;
    CopyStep(nested, mode, s);
  }

  /** Text in which the scan finds no comment is copied. */
  lemma {:induction false} PassedText(nested: bool, mode: Reading, text: string, rest: string)
    requires Passes(mode, text, rest)
    ensures Strip(nested, mode, text + rest) == text + Strip(nested, Through(mode, text), rest)
    decreases |text|
  {
    if text == "" {
      assert text + rest == rest;
    } else {
      var next := NextMode(false, mode, text[0], None);
      PassedText(nested, next, text[1..], rest);
      assert text == [text[0]] + text[1..];
      Associate([text[0]], text[1..], rest);
      ReadStep(nested, mode, text[0], text[1..] + rest);
      Associate([text[0]], text[1..], Strip(nested, Through(mode, text), rest));
    }
  }

  lemma FirstBlanked(nested: bool, mode: Reading, s: string)
    requires s != "" && TokenLength(false, mode, s[0], CharAt(s, 1)) == 2
    ensures Strip(nested, mode, s) != "" && Strip(nested, mode, s)[0] != s[0]
  {
  }

  /** Where the scan finds a comment, it does not copy. */
  lemma {:induction false} BlankedText(nested: bool, mode: Reading, text: string, rest: string)
    requires !Passes(mode, text, rest)
    ensures |Strip(nested, mode, text + rest)| == |text + rest|
    ensures Strip(nested, mode, text + rest)[..|text|] != text
    decreases |text|
  {
    hide Strip;
    var s, r := text + rest, Strip(nested, mode, text + rest);
    StripKeepsPositions(nested, mode, s);
    assert s[1..] == text[1..] + rest && CharAt(s, 1) == CharAt(text[1..] + rest, 0);
    if TokenLength(false, mode, text[0], CharAt(s, 1)) == 1 {
      var next := NextMode(false, mode, text[0], None);
      assert s == [text[0]] + s[1..];
      ReadStep(nested, mode, text[0], s[1..]);
      BlankedText(nested, next, text[1..], rest);
      assert r[1..] == Strip(nested, next, s[1..]);
      assert r[..|text|][1..] == r[1..][..|text[1..]|];
    } else {
      FirstBlanked(nested, mode, s);
      assert r[..|text|][0] == r[0];
    }
  }

  // ----- comments -----

  lemma Regroup(a: string, b: string, c: string, d: string)
    ensures (a + b) + c + d == a + (b + c + d)
  {
  }

  lemma {:induction false} BlankAppend(a: string, b: string)
    ensures Blank(a + b) == Blank(a) + Blank(b)
  {
    if a == "" {
      assert a + b == b;
    } else {
      assert (a + b)[1..] == a[1..] + b;
      BlankAppend(a[1..], b);
    }
  }

  lemma {:induction false} StripLine(nested: bool, text: string, rest: string)
    requires '\n' !in text && (rest == "" || rest[0] == '\n')
    ensures Strip(nested, InLine, text + rest) == Blank(text) + Strip(nested, InCode, rest)
  {
    if text == "" {
      assert text + rest == rest;
      LineEnds(nested, rest);
    } else {
      var c, tail := text[0], text[1..] + rest;
      assert text + rest == [c] + tail;
      StripLine(nested, text[1..], rest);
      LineStep(nested, c, tail);
      Associate([BlankChar(c)], Blank(text[1..]), Strip(nested, InCode, rest));
    }
  }

  lemma LineEnds(nested: bool, rest: string)
    requires rest == "" || rest[0] == '\n'
    ensures Strip(nested, InLine, rest) == Strip(nested, InCode, rest)
  {
  }

  lemma LineStep(nested: bool, c: char, tail: string)
    requires c != '\n'
    ensures Strip(nested, InLine, [c] + tail) == [BlankChar(c)] + Strip(nested, InLine, tail)
  {
    assert ([c] + tail)[1..] == tail;
  }

  lemma PairStep(nested: bool, mode: Mode, a: char, b: char, tail: string)
    requires TokenLength(nested, mode, a, Some(b)) == 2
    ensures Strip(nested, mode, [a, b] + tail) == "  " + Strip(nested, NextMode(nested, mode, a, Some(b)), tail)
  {
    var s := [a, b] + tail;
    assert s[0] == a && CharAt(s, 1) == Some(b) && s[2..] == tail;
  }

  lemma RawStep(nested: bool, depth: Depth, c: char, tail: string)
    requires TokenLength(nested, InBlock(1), c, CharAt(tail, 0)) == 1
    ensures Strip(nested, InBlock(depth), [c] + tail) == [BlankChar(c)] + Strip(nested, InBlock(depth), tail)
  {
    var s := [c] + tail;
    assert s[0] == c && CharAt(s, 1) == CharAt(tail, 0) && s[1..] == tail;
  }

  function Outside(depth: Depth): Mode {
    if depth == 1 then InCode else InBlock(depth - 1)
  }

  /** Where a comment opens, it is blanked up to its end. */
  lemma {:induction false} StripDelimited(
    nested: bool, mode: Mode, inner: Depth, text: string, cleaned: string, rest: string, after: string)
    requires TokenLength(nested, mode, '/', Some('*')) == 2
    requires NextMode(nested, mode, '/', Some('*')) == InBlock(inner)
    requires Strip(nested, InBlock(inner), text + "*/" + rest) == cleaned + "  " + after
    ensures Strip(nested, mode, "/*" + text + "*/" + rest) == "  " + cleaned + "  " + after
  {
    assert "/*" == ['/', '*'];
    Regroup("/*", text, "*/", rest);
    PairStep(nested, mode, '/', '*', text + "*/" + rest);
    Regroup("  ", cleaned, "  ", after);
  }

  lemma {:induction false} StripParts(nested: bool, depth: Depth, parts: seq<CommentPart>, rest: string)
    requires GoodParts(nested, parts)
    ensures Strip(nested, InBlock(depth), PartsText(parts) + "*/" + rest) ==
            Blank(PartsText(parts)) + "  " + Strip(nested, Outside(depth), rest)
    decreases parts
  {
    if parts == [] {
      assert "*/" == ['*', '/'] && PartsText(parts) + "*/" == "*/";
      PairStep(nested, InBlock(depth), '*', '/', rest);
      assert Blank("") + "  " == "  ";
    } else {
      var others := PartsText(parts[1..]);
      var tail := others + "*/" + rest;
      StripParts(nested, depth, parts[1..], rest);
      StripPart(nested, depth, parts[0], others, rest);
      BlankAppend(PartText(parts[0]), others);
      Regroup(PartText(parts[0]), others, "*/", rest);
      Regroup(Blank(PartText(parts[0])), Blank(others), "  ", Strip(nested, Outside(depth), rest));
    }
  }

  lemma {:induction false} StripPart(nested: bool, depth: Depth, part: CommentPart, others: string, rest: string)
    requires GoodPart(nested, part, others)
    ensures Strip(nested, InBlock(depth), PartText(part) + (others + "*/" + rest)) ==
            Blank(PartText(part)) + Strip(nested, InBlock(depth), others + "*/" + rest)
    decreases part
  {
    var tail := others + "*/" + rest;
    match part {
      case Raw(c) =>
        assert CharAt(tail, 0) == CharAt(others + "*/", 0);
        RawStep(nested, depth, c, tail);
      case Inner(inner) =>
        StripParts(nested, depth + 1, inner, tail);
        var body := PartsText(inner);
        StripDelimited(nested, InBlock(depth), depth + 1, body, Blank(body), tail, Strip(nested, InBlock(depth), tail));
        BlankDelimited(body);
    }
  }

  lemma {:induction false} BlankDelimited(text: string)
    ensures Blank("/*" + text + "*/") == "  " + Blank(text) + "  "
  {
    BlankAppend("/*" + text, "*/");
    BlankAppend("/*", text);
    assert Blank("/*") == "  " && Blank("*/") == "  ";
  }

  lemma {:induction false} StripBlock(nested: bool, parts: seq<CommentPart>, rest: string)
    requires GoodParts(nested, parts)
    ensures var text := SegmentText(Block(parts));
            Strip(nested, InCode, text + rest) == Blank(text) + Strip(nested, InCode, rest)
  {
    var body := PartsText(parts);
    StripParts(nested, 1, parts, rest);
    StripDelimited(nested, InCode, 1, body, Blank(body), rest, Strip(nested, InCode, rest));
    BlankDelimited(body);
  }

  lemma {:induction false} StripComment(nested: bool, text: string, rest: string)
    requires '\n' !in text && (rest == "" || rest[0] == '\n')
    ensures Strip(nested, InCode, "//" + text + rest) == Blank("//" + text) + Strip(nested, InCode, rest)
  {
    assert "//" == ['/', '/'];
    Associate("//", text, rest);
    PairStep(nested, InCode, '/', '/', text + rest);
    StripLine(nested, text, rest);
    BlankAppend("//", text);
    assert Blank("//") == "  ";
    Associate("  ", Blank(text), Strip(nested, InCode, rest));
  }

  lemma StripOneComment(nested: bool, segment: Segment, rest: string)
    requires IsComment(segment) && GoodSegment(nested, segment, rest)
    ensures Strip(nested, InCode, SegmentText(segment) + rest) ==
            SegmentCleaned(segment) + Strip(nested, InCode, rest)
  {
    match segment {
      case Line(text) => StripComment(nested, text, rest);
      case Block(parts) => StripBlock(nested, parts, rest);
    }
  }

  /** Inside of what the scan takes for a literal, a comment starts like any text. */
  lemma MissedComment(nested: bool, mode: Reading, segment: Segment, rest: string)
    requires IsComment(segment) && mode != InCode
    ensures var r := Strip(nested, mode, SegmentText(segment) + rest);
            r != "" && r[0] == '/' && SegmentCleaned(segment) != "" && SegmentCleaned(segment)[0] == ' '
  {
    var s := SegmentText(segment) + rest;
    assert s[0] == '/';
    assert SegmentText(segment) == ['/'] + SegmentText(segment)[1..];
    CopyStep(nested, mode, s);
  }

  lemma SplitEqual(a: string, b: string, r: string, c: string)
    requires |r| >= |a| && (r[..|a|] == a ==> r == a + b)
    ensures r == a + c <==> (r[..|a|] == a && b == c)
  {
    if r == a + c {
      assert r[..|a|] == a && r[|a|..] == c;
      assert r[|a|..] == b;
    }
  }

  /** Exactly the comments of a source are blanked, line comments up to the end of the line and block comments with all
      the comments nested in them, if and only if the scan is in code at every comment and finds no other comment. */
  lemma {:induction false} StripSegments(nested: bool, mode: Reading, segments: seq<Segment>)
    requires Good(nested, segments)
    ensures Strip(nested, mode, Text(segments)) == Cleaned(segments) <==> Clear(mode, segments)
    decreases |segments|
  {
    if segments != [] {
      var segment, rest := segments[0], Text(segments[1..]);
      var text, cleaned, r := SegmentText(segment), SegmentCleaned(segment), Strip(nested, mode, Text(segments));
      StripKeepsPositions(nested, mode, Text(segments));
      if !IsComment(segment) {
        if Passes(mode, text, rest) {
          PassedText(nested, mode, text, rest);
          StripSegments(nested, Through(mode, text), segments[1..]);
          SplitEqual(text, Strip(nested, Through(mode, text), rest), r, Cleaned(segments[1..]));
        } else {
          BlankedText(nested, mode, text, rest);
          assert Cleaned(segments)[..|text|] == text;
        }
      } else if mode == InCode {
        StripOneComment(nested, segment, rest);
        StripSegments(nested, InCode, segments[1..]);
        SplitEqual(cleaned, Strip(nested, InCode, rest), r, Cleaned(segments[1..]));
      } else {
        MissedComment(nested, mode, segment, rest);
      }
    }
  }

  // ----- sources without other text -----

  predicate Understood(segments: seq<Segment>) {
    segments == [] || (!segments[0].Other? && Understood(segments[1..]))
  }

  function QuoteMode(quote: char, escaped: bool): Reading {
    if quote == '"' then InString(escaped) else InChar(escaped)
  }

  lemma {:induction false} ThroughAppend(mode: Reading, a: string, b: string)
    ensures Through(mode, a + b) == Through(Through(mode, a), b)
    decreases |a|
  {
    if a == "" {
      assert a + b == b;
    } else {
      assert (a + b)[1..] == a[1..] + b;
      ThroughAppend(NextMode(false, mode, a[0], None), a[1..], b);
    }
  }

  lemma {:induction false} PassesAppend(mode: Reading, a: string, b: string, rest: string)
    ensures Passes(mode, a + b, rest) <==> Passes(mode, a, b + rest) && Passes(Through(mode, a), b, rest)
    decreases |a|
  {
    if a == "" {
      assert a + b == b;
    } else {
      assert (a + b)[1..] == a[1..] + b;
      Associate(a[1..], b, rest);
      PassesAppend(NextMode(false, mode, a[0], None), a[1..], b, rest);
    }
  }

  lemma ReadOne(mode: Reading, c: char, rest: string)
    requires TokenLength(false, mode, c, CharAt(rest, 0)) == 1
    ensures Passes(mode, [c], rest) && Through(mode, [c]) == NextMode(false, mode, c, None)
  {
    assert [c][1..] + rest == rest;
    assert Passes(NextMode(false, mode, c, None), [c][1..], rest);
  }

  /** Text that the scan reads inside of a literal, from one mode to another. */
  predicate Reads(mode: Reading, text: string, rest: string, behind: Reading) {
    Passes(mode, text, rest) && Through(mode, text) == behind
  }

  lemma ReadsAppend(mode: Reading, a: string, middle: Reading, b: string, rest: string, behind: Reading)
    requires Reads(mode, a, b + rest, middle) && Reads(middle, b, rest, behind)
    ensures Reads(mode, a + b, rest, behind)
  {
    ThroughAppend(mode, a, b);
    PassesAppend(mode, a, b, rest);
  }

  lemma ReadQuotedChar(mode: Reading, escaped: Reading, q: QuotedChar, rest: string)
    requires (mode == InString(false) && escaped == InString(true)) ||
             (mode == InChar(false) && escaped == InChar(true))
    requires q.Simple? ==> q.c != (if mode.InString? then '"' else '\'') && q.c != '\\'
    ensures Reads(mode, QuotedCharText(q), rest, mode)
  {
    match q {
      case Simple(c) => ReadOne(mode, c, rest);
      case Escaped(c) =>
        ReadOne(escaped, c, rest);
        ReadOne(mode, '\\', [c] + rest);
        ReadsAppend(mode, ['\\'], escaped, [c], rest, mode);
    }
  }

  /** A literal's body is read to its end in every literal that its characters do not close. */
  lemma {:induction false} ReadBody(mode: Reading, body: seq<QuotedChar>, rest: string)
    requires mode == InString(false) || mode == InChar(false)
    requires GoodQuoted(if mode.InString? then '"' else '\'', body)
    ensures Reads(mode, QuotedText(body), rest, mode)
    decreases |body|
  {
    if body != [] {
      var first, others := QuotedCharText(body[0]), QuotedText(body[1..]);
      ReadBody(mode, body[1..], rest);
      ReadQuotedChar(mode, if mode.InString? then InString(true) else InChar(true), body[0], others + rest);
      ReadsAppend(mode, first, mode, others, rest, mode);
    }
  }

  /** What stands between quotes is read as it is meant to be. */
  lemma ReadDelimited(mode: Reading, inner: Reading, quote: char, body: string, rest: string, behind: Reading)
    requires quote != '/'
    requires NextMode(false, mode, quote, None) == inner && NextMode(false, inner, quote, None) == behind
    requires Reads(inner, body, [quote] + rest, inner)
    ensures Reads(mode, [quote] + body + [quote], rest, behind)
  {
    ReadOne(mode, quote, body + ([quote] + rest));
    ReadsAppend(mode, [quote], inner, body, [quote] + rest, inner);
    ReadOne(inner, quote, rest);
    ReadsAppend(mode, [quote] + body, inner, [quote], rest, behind);
  }

  lemma ReadLiteral(quote: char, body: seq<QuotedChar>, rest: string)
    requires (quote == '"' || quote == '\'') && GoodQuoted(quote, body)
    ensures Reads(InCode, [quote] + QuotedText(body) + [quote], rest, InCode)
  {
    ReadBody(QuoteMode(quote, false), body, [quote] + rest);
    ReadDelimited(InCode, QuoteMode(quote, false), quote, QuotedText(body), rest, InCode);
  }

  /** Code, literals and comments alone are all taken for what they are: exactly the comments are blanked. */
  lemma {:induction false} UnderstoodIsClear(nested: bool, segments: seq<Segment>)
    requires Good(nested, segments) && Understood(segments)
    ensures Clear(InCode, segments)
    decreases |segments|
  {
    if segments != [] {
      var rest := Text(segments[1..]);
      UnderstoodIsClear(nested, segments[1..]);
      match segments[0] {
        case Plain(c) => ReadOne(InCode, c, rest);
        case Quoted(quote, body) => ReadLiteral(quote, body, rest);
        case _ =>
      }
    }
  }

  // ----- lone apostrophes -----

  /** Nothing in the literal looks like the end or the start of one, or like a comment, when read as code. */
  predicate PlainBody(text: string) {
    text == "" ||
    (text[0] != '"' && text[0] != '\'' && TokenLength(false, InCode, text[0], CharAt(text, 1)) == 1 &&
     PlainBody(text[1..]))
  }

  /** The usual text: no backslash in code, no quote in a literal of the other kind, and apostrophes alone as other
      text. */
  predicate Usual(segment: Segment) {
    match segment
    case Plain(c) => c != '\\'
    case Quoted(quote, body) => if quote == '"' then GoodQuoted('\'', body) else PlainBody(QuotedText(body))
    case Other(text) => text == "'"
    case _ => true
  }

  predicate AllUsual(segments: seq<Segment>) {
    segments == [] || (Usual(segments[0]) && AllUsual(segments[1..]))
  }

  /** How many apostrophes stand alone: those of lifetimes and of digit separators. */
  function LoneApostrophes(segments: seq<Segment>): nat {
    if segments == [] then 0 else Lone(segments[0]) + LoneApostrophes(segments[1..])
  }

  function Lone(segment: Segment): nat {
    if segment.Other? then 1 else 0
  }

  /** Every comment is behind an even number of lone apostrophes, counting some before all segments. */
  predicate EvenAtComments(before: nat, segments: seq<Segment>) {
    forall i :: 0 <= i < |segments| && IsComment(segments[i]) ==> (before + LoneApostrophes(segments[..i])) % 2 == 0
  }

  /** Behind an odd number of lone apostrophes, the scan is in a literal. */
  function ParityMode(count: nat): Reading {
    if count % 2 == 0 then InCode else InChar(false)
  }

  lemma {:induction false} ReadPlainBody(text: string, quote: char, rest: string)
    requires PlainBody(text) && quote == '\''
    ensures Reads(InCode, text, [quote] + rest, InCode)
    decreases |text|
  {
    if text != "" {
      var tail := text[1..];
      ReadPlainBody(tail, quote, rest);
      assert CharAt(tail + ([quote] + rest), 0) == if tail == "" then Some(quote) else CharAt(text, 1);
    }
  }

  /** In the mode of an odd count, a literal is read from a literal to a literal. */
  lemma ReadLiteralInside(quote: char, body: seq<QuotedChar>, rest: string)
    requires (quote == '"' || quote == '\'') && GoodQuoted(quote, body) && Usual(Quoted(quote, body))
    ensures Reads(InChar(false), [quote] + QuotedText(body) + [quote], rest, InChar(false))
  {
    if quote == '"' {
      ReadBody(InChar(false), body, [quote] + rest);
      ReadDelimited(InChar(false), InChar(false), quote, QuotedText(body), rest, InChar(false));
    } else {
      ReadPlainBody(QuotedText(body), quote, rest);
      ReadDelimited(InChar(false), InCode, quote, QuotedText(body), rest, InChar(false));
    }
  }

  lemma ReadUsual(nested: bool, count: nat, segment: Segment, rest: string)
    requires !IsComment(segment) && GoodSegment(nested, segment, rest) && Usual(segment)
    ensures Reads(ParityMode(count), SegmentText(segment), rest,
                  ParityMode(count + Lone(segment)))
  {
    match segment {
      case Plain(c) => ReadOne(ParityMode(count), c, rest);
      case Quoted(quote, body) =>
        if count % 2 == 0 {
          ReadLiteral(quote, body, rest);
        } else {
          ReadLiteralInside(quote, body, rest);
        }
      case Other(text) => ReadOne(ParityMode(count), '\'', rest);
    }
  }

  lemma {:induction false} LoneBehind(segments: seq<Segment>, i: nat)
    requires 0 < i <= |segments|
    ensures LoneApostrophes(segments[..i]) == Lone(segments[0]) + LoneApostrophes(segments[1..][..i - 1])
  {
    var upTo := segments[..i];
    assert upTo[0] == segments[0] && upTo[1..] == segments[1..][..i - 1];
  }

  lemma {:induction false} EvenForRest(before: nat, segments: seq<Segment>)
    requires segments != [] && EvenAtComments(before, segments)
    ensures IsComment(segments[0]) ==> before % 2 == 0
    ensures EvenAtComments(before + Lone(segments[0]), segments[1..])
  {
    var rest, next := segments[1..], before + Lone(segments[0]);
    assert segments[..0] == [];
    forall i | 0 <= i < |rest| && IsComment(rest[i]) ensures (next + LoneApostrophes(rest[..i])) % 2 == 0 {
      assert rest[i] == segments[i + 1];
      LoneBehind(segments, i + 1);
    }
  }

  lemma {:induction false} EvenFromRest(before: nat, segments: seq<Segment>)
    requires segments != [] && (IsComment(segments[0]) ==> before % 2 == 0)
    requires EvenAtComments(before + Lone(segments[0]), segments[1..])
    ensures EvenAtComments(before, segments)
  {
    assert segments[..0] == [];
    forall i | 0 <= i < |segments| && IsComment(segments[i])
      ensures (before + LoneApostrophes(segments[..i])) % 2 == 0
    {
      if i > 0 {
        assert segments[i] == segments[1..][i - 1];
        LoneBehind(segments, i);
      }
    }
  }

  lemma EvenBehind(before: nat, segments: seq<Segment>)
    requires segments != []
    ensures EvenAtComments(before, segments) <==>
            (IsComment(segments[0]) ==> before % 2 == 0) && EvenAtComments(before + Lone(segments[0]), segments[1..])
  {
    if EvenAtComments(before, segments) {
      EvenForRest(before, segments);
    } else if EvenAtComments(before + Lone(segments[0]), segments[1..]) {
      if IsComment(segments[0]) ==> before % 2 == 0 {
        EvenFromRest(before, segments);
      }
    }
  }

  lemma {:induction false} ClearBehind(nested: bool, before: nat, segments: seq<Segment>)
    requires segments != [] && GoodSegment(nested, segments[0], Text(segments[1..])) && Usual(segments[0])
    ensures Clear(ParityMode(before), segments) <==>
            (IsComment(segments[0]) ==> before % 2 == 0) && Clear(ParityMode(before + Lone(segments[0])), segments[1..])
  {
    if !IsComment(segments[0]) {
      ReadUsual(nested, before, segments[0], Text(segments[1..]));
    }
  }

  lemma {:induction false} ClearByParity(nested: bool, before: nat, segments: seq<Segment>)
    requires Good(nested, segments) && AllUsual(segments)
    ensures Clear(ParityMode(before), segments) <==> EvenAtComments(before, segments)
    decreases |segments|
  {
    if segments != [] {
      EvenBehind(before, segments);
      ClearBehind(nested, before, segments);
      ClearByParity(nested, before + Lone(segments[0]), segments[1..]);
    }
  }

  /** With lifetimes and digit separators, exactly the comments are blanked if and only if every comment is behind an
      even number of their apostrophes. */
  lemma StripByParity(nested: bool, segments: seq<Segment>)
    requires Good(nested, segments) && AllUsual(segments)
    ensures Strip(nested, InCode, Text(segments)) == Cleaned(segments) <==> EvenAtComments(0, segments)
  {
    ClearByParity(nested, 0, segments);
    StripSegments(nested, InCode, segments);
  }

  /** Behind an apostrophe everything is copied up to the next one, comments too. */
  lemma {:induction false} InsideChar(nested: bool, text: string)
    requires forall i :: 0 <= i < |text| ==> text[i] != '\'' && text[i] != '\\'
    ensures Strip(nested, InChar(false), text) == text
  {
    if text != "" {
      InsideChar(nested, text[1..]);
      CopyStep(nested, InChar(false), text);
    }
  }

  /** A lifetime before a comment: the comment is not blanked. */
  lemma LifetimeKeepsComment(nested: bool)
    ensures var segments := [Other("'")] + ([Plain('a')] + [Line("x")]);
            Good(nested, segments) && AllUsual(segments) && Text(segments) == "'a//x" && Cleaned(segments) == "'a   "
    ensures Strip(nested, InCode, "'a//x") == "'a//x"
  {
    var comment := [Line("x")];
    CommentSource(nested, "x");
    CodeSource();
    SourceBehind(nested, Plain('a'), comment, "//x", "   ");
    SourceBehind(nested, Other("'"), [Plain('a')] + comment, "a//x", "a   ");
    InsideChar(nested, "a//x");
    CopyStep(nested, InCode, "'a//x");
  }

  lemma CommentSource(nested: bool, text: string)
    requires '\n' !in text
    ensures var segments := [Line(text)];
            && Good(nested, segments) && AllUsual(segments)
            && Text(segments) == "//" + text && Cleaned(segments) == Blank("//" + text)
  {
  }

  lemma CodeSource()
    ensures "//" + "x" == "//x" && Blank("//x") == "   "
    ensures ['a'] + "//x" == "a//x" && ['a'] + "   " == "a   "
    ensures "'" + "a//x" == "'a//x" && "'a//x"[1..] == "a//x" && "'" + "a   " == "'a   "
  {
    assert "//x"[1..] == "/x" && "/x"[1..] == "x" && "x"[1..] == "";
  }

  lemma SourceBehind(nested: bool, segment: Segment, segments: seq<Segment>, text: string, cleaned: string)
    requires Good(nested, segments) && AllUsual(segments) && Text(segments) == text && Cleaned(segments) == cleaned
    requires !IsComment(segment) && GoodSegment(nested, segment, text) && Usual(segment)
    ensures var more := [segment] + segments;
            && Good(nested, more) && AllUsual(more)
            && Text(more) == SegmentText(segment) + text && Cleaned(more) == SegmentText(segment) + cleaned
  {
    assert ([segment] + segments)[1..] == segments;
  }
}
