/** The cursor parser of Cargo `cfg(...)` target conditions. */
module CfgParsing {
  import opened Wrappers

  datatype CfgExpr =
    | Flag(name: string)
    | Value(key: string, value: string)
    | All(arguments: seq<CfgExpr>)
    | Any(arguments: seq<CfgExpr>)
    | Not(argument: CfgExpr)

  datatype CfgError = Unsupported | Syntax

  predicate IsSpace(c: char) {
    c == ' ' || c == '\t' || c == '\n' || c == '\r' || c == 12 as char
  }

  predicate IsWord(c: char) {
    'a' <= c <= 'z' || 'A' <= c <= 'Z' || '0' <= c <= '9' || c == '_'
  }

  predicate IsAscii(c: char) {
    (c as int) < 128
  }

  predicate StartsWith(s: string, c: char) {
    s != "" && s[0] == c
  }

  // ----- the grammar as functions from text to a result and the text left -----

  function SkipSpace(s: string): (r: string)
    ensures |r| <= |s|
    ensures r == "" || !IsSpace(r[0])
    ensures r == s <==> s == "" || !IsSpace(s[0])
  {
    if s != "" && IsSpace(s[0]) then SkipSpace(s[1..]) else s
  }

  /** The word at the front and the text behind it. */
  function Word(s: string): (r: (string, string))
    ensures r.0 + r.1 == s
    ensures forall i :: 0 <= i < |r.0| ==> IsWord(r.0[i])
    ensures r.1 == "" || !IsWord(r.1[0])
  {
    if s != "" && IsWord(s[0]) then
      var (w, rest) := Word(s[1..]);
      ([s[0]] + w, rest)
    else ("", s)
  }

  lemma {:induction false} WordSpan(s: string, n: nat)
    requires n <= |s| && (n == |s| || !IsWord(s[n]))
    requires forall k :: 0 <= k < n ==> IsWord(s[k])
    ensures Word(s) == (s[..n], s[n..])
  {
    if n > 0 {
      WordSpan(s[1..], n - 1);
      assert s[..n] == [s[0]] + s[1..][..n - 1];
      assert s[1..][n - 1..] == s[n..];
    }
  }

  /** A word in the middle of the input. */
  lemma WordAt(input: string, start: nat, end: nat)
    requires start <= end <= |input| && (end == |input| || !IsWord(input[end]))
    requires forall k :: start <= k < end ==> IsWord(input[k])
    ensures Word(input[start..]) == (input[start..end], input[end..])
  {
    var text := input[start..];
    WordSpan(text, end - start);
    assert text[..end - start] == input[start..end] && text[end - start..] == input[end..];
  }

  function Identifier(s: string): (r: Result<(string, string), CfgError>)
    ensures r.Ok? ==> |r.value.1| < |s| && r.value.0 != ""
  {
    var t := SkipSpace(s);
    var (w, rest) := Word(t);
    if w == "" then Err(Syntax) else
    assert |t| == |w| + |rest|;
    Ok((w, rest))
  }

  /** The characters up to the closing quote, unescaped. */
  function StringBody(s: string): (r: Result<(string, string), CfgError>)
    ensures r.Ok? ==> |r.value.1| < |s|
  {
    if s == "" then Err(Syntax)
    else if s[0] == '"' then Ok(("", s[1..]))
    else if s[0] == '\\' then
      if |s| == 1 || (s[1] != '"' && s[1] != '\\') then Err(Syntax)
      else
        match StringBody(s[2..])
        case Ok((v, rest)) => Ok(([s[1]] + v, rest))
        case Err(e) => Err(e)
    else if !IsAscii(s[0]) then Err(Syntax)
    else
      match StringBody(s[1..])
      case Ok((v, rest)) => Ok(([s[0]] + v, rest))
      case Err(e) => Err(e)
  }

  function QuotedString(s: string): (r: Result<(string, string), CfgError>)
    ensures r.Ok? ==> |r.value.1| < |s|
  {
    if StartsWith(s, '"') then StringBody(s[1..]) else Err(Syntax)
  }

  function Operator(name: string, arguments: seq<CfgExpr>): Result<CfgExpr, CfgError> {
    if arguments == [] then Err(Syntax)
    else if name == "all" then Ok(All(arguments))
    else if name == "any" then Ok(Any(arguments))
    else if name == "not" then (if |arguments| == 1 then Ok(Not(arguments[0])) else Err(Syntax))
    else Err(Unsupported)
  }

  function Expression(s: string): (r: Result<(CfgExpr, string), CfgError>)
    ensures r.Ok? ==> |r.value.1| < |s|
    decreases |s|, 0
  {
    match Identifier(s)
    case Err(e) => Err(e)
    case Ok((name, behind)) =>
      var t := SkipSpace(behind);
      if StartsWith(t, '=') then
        match QuotedString(SkipSpace(t[1..]))
        case Ok((v, rest)) => Ok((Value(name, v), rest))
        case Err(e) => Err(e)
      else if StartsWith(t, '(') then
        match Arguments(t[1..])
        case Err(e) => Err(e)
        case Ok((arguments, rest)) =>
          match Operator(name, arguments)
          case Ok(e) => Ok((e, rest))
          case Err(e) => Err(e)
      else Ok((Flag(name), t))
  }

  /** The arguments up to and with the closing parenthesis. */
  function Arguments(s: string): (r: Result<(seq<CfgExpr>, string), CfgError>)
    ensures r.Ok? ==> |r.value.1| < |s|
    decreases |s|, 1
  {
    var t := SkipSpace(s);
    if StartsWith(t, ')') then Ok(([], t[1..]))
    else
      match Expression(t)
      case Err(e) => Err(e)
      case Ok((first, behind)) =>
        var u := SkipSpace(behind);
        if StartsWith(u, ')') then Ok(([first], u[1..]))
        else if StartsWith(u, ',') then
          match Arguments(u[1..])
          case Ok((others, rest)) => Ok(([first] + others, rest))
          case Err(e) => Err(e)
        else Err(Syntax)
  }

  function Closing(s: string, e: CfgExpr): Result<CfgExpr, CfgError> {
    var t := SkipSpace(s);
    if !StartsWith(t, ')') then Err(Syntax)
    else if SkipSpace(t[1..]) != "" then Err(Syntax)
    else Ok(e)
  }

  /** A whole condition: `cfg`, one expression in parentheses, nothing else. */
  function Condition(s: string): Result<CfgExpr, CfgError> {
    match Identifier(SkipSpace(s))
    case Err(e) => Err(e)
    case Ok((name, behind)) =>
      if name != "cfg" then Err(Unsupported)
      else
        var t := SkipSpace(behind);
        if !StartsWith(t, '(') then Err(Syntax)
        else
          match Expression(t[1..])
          case Err(e) => Err(e)
          case Ok((e, rest)) => Closing(rest, e)
  }

  // ----- the parser -----

  /** The outcome of a parse against the text left behind. */
  ghost predicate Agrees<T>(expected: Result<(T, string), CfgError>, found: Result<T, CfgError>, rest: string) {
    match expected
    case Ok((v, left)) => found == Ok(v) && rest == left
    case Err(e) => found == Err(e)
  }

  class CfgParser {
    const input: string
    var position: nat

    constructor (input: string)
      ensures Valid() && this.input == input && Rest() == input
    {
      this.input := input;
      position := 0;
    }

    ghost predicate Valid()
      reads this
    {
      position <= |input|
    }

    /** The text not read yet. */
    function Rest(): string
      reads this
      requires Valid()
    {
      input[position..]
    }

    method SkipWhitespace()
      requires Valid()
      modifies this`position
      ensures Valid() && Rest() == SkipSpace(old(Rest()))
    {
      while position < |input| && IsSpace(input[position])
        invariant Valid() && SkipSpace(Rest()) == SkipSpace(old(Rest()))
      {
        assert Rest()[1..] == input[position + 1..];
        position := position + 1;
      }
    }

    method Consume(c: char) returns (found: bool)
      requires Valid()
      modifies this`position
      ensures Valid() && found == StartsWith(old(Rest()), c)
      ensures Rest() == if found then old(Rest())[1..] else old(Rest())
    {
      found := position < |input| && input[position] == c;
      if found {
        assert Rest()[1..] == input[position + 1..];
        position := position + 1;
      }
    }

    method ParseIdentifier() returns (r: Result<string, CfgError>)
      requires Valid()
      modifies this`position
      ensures Valid() && Agrees(Identifier(old(Rest())), r, Rest())
    {
      hide IsWord, Word, SkipSpace;
      SkipWhitespace();
      var start := position;
      while position < |input| && IsWord(input[position])
        invariant start <= position <= |input|
        invariant forall k :: start <= k < position ==> IsWord(input[k])
      {
        position := position + 1;
      }
      WordAt(input, start, position);
      if position == start {
        return Err(Syntax);
      }
      return Ok(input[start..position]);
    }

    method ParseString() returns (r: Result<string, CfgError>)
      requires Valid()
      modifies this`position
      ensures Valid() && Agrees(QuotedString(old(Rest())), r, Rest())
    {
      var present := Consume('"');
      if !present {
        return Err(Syntax);
      }
      ghost var body := Rest();
      var output := "";
      assert StringBody(body).Ok? ==> output + StringBody(body).value.0 == StringBody(body).value.0;
      while position < |input|
        invariant Valid()
        invariant StringBody(body) == match StringBody(Rest())
                                      case Ok((v, rest)) => Ok((output + v, rest))
                                      case Err(e) => Err(e)
      {
        var c := input[position];
        ghost var text := Rest();
        assert text[1..] == input[position + 1..];
        position := position + 1;
        if c == '"' {
          assert output + "" == output;
          return Ok(output);
        } else if c == '\\' {
          if position == |input| {
            return Err(Syntax);
          }
          var escaped := input[position];
          assert text[2..] == input[position + 1..];
          position := position + 1;
          if escaped != '"' && escaped != '\\' {
            return Err(Syntax);
          }
          PushCharacter(output, escaped, StringBody(Rest()));
          output := output + [escaped];
        } else if IsAscii(c) {
          PushCharacter(output, c, StringBody(Rest()));
          output := output + [c];
        } else {
          return Err(Syntax);
        }
      }
      return Err(Syntax);
    }

    method ParseExpression() returns (r: Result<CfgExpr, CfgError>)
      requires Valid()
      modifies this`position
      ensures Valid() && Agrees(Expression(old(Rest())), r, Rest())
      decreases |Rest()|, 0
    {
      SkipWhitespace();
      IdentifierSkipsSpace(old(Rest()));
      var name := ParseIdentifier();
      if name.Err? {
        return Err(name.error);
      }
      SkipWhitespace();
      var isValue := Consume('=');
      if isValue {
        SkipWhitespace();
        var v := ParseString();
        if v.Err? {
          return Err(v.error);
        }
        return Ok(Value(name.value, v.value));
      }
      var isOperator := Consume('(');
      if !isOperator {
        return Ok(Flag(name.value));
      }
      var arguments := ParseArguments();
      if arguments.Err? {
        return Err(arguments.error);
      }
      return Operator(name.value, arguments.value);
    }

    /** The closing parenthesis of the condition and the end of the text. */
    method ParseClosing(e: CfgExpr) returns (r: Result<CfgExpr, CfgError>)
      requires Valid()
      modifies this`position
      ensures Valid() && r == Closing(old(Rest()), e)
    {
      SkipWhitespace();
      var closed := Consume(')');
      if !closed {
        return Err(Syntax);
      }
      SkipWhitespace();
      if position != |input| {
        return Err(Syntax);
      }
      return Ok(e);
    }

    method ParseArguments() returns (r: Result<seq<CfgExpr>, CfgError>)
      requires Valid()
      modifies this`position
      ensures Valid() && Agrees(Arguments(old(Rest())), r, Rest())
      decreases |Rest()|, 1
    {
      var arguments: seq<CfgExpr> := [];
      ghost var text := Rest();
      assert Arguments(text).Ok? ==> arguments + Arguments(text).value.0 == Arguments(text).value.0;
      while true
        invariant Valid() && |Rest()| <= |text|
        invariant Arguments(text) == match Arguments(Rest())
                                     case Ok((others, rest)) => Ok((arguments + others, rest))
                                     case Err(e) => Err(e)
        decreases |Rest()|
      {
        ghost var here := Rest();
        SkipWhitespace();
        var closed := Consume(')');
        if closed {
          assert arguments + [] == arguments;
          return Ok(arguments);
        }
        var argument := ParseExpression();
        if argument.Err? {
          return Err(argument.error);
        }
        SkipWhitespace();
        closed := Consume(')');
        if closed {
          return Ok(arguments + [argument.value]);
        }
        var comma := Consume(',');
        if !comma {
          return Err(Syntax);
        }
        PushArgument(arguments, argument.value, Arguments(Rest()));
        arguments := arguments + [argument.value];
      }
    }
  }

  lemma PushCharacter(output: string, c: char, tail: Result<(string, string), CfgError>)
    ensures tail.Ok? ==> output + ([c] + tail.value.0) == (output + [c]) + tail.value.0
  {
  }

  lemma PushArgument(arguments: seq<CfgExpr>, e: CfgExpr, tail: Result<(seq<CfgExpr>, string), CfgError>)
    ensures tail.Ok? ==> arguments + ([e] + tail.value.0) == (arguments + [e]) + tail.value.0
  {
  }

  lemma IdentifierSkipsSpace(s: string)
    ensures Identifier(SkipSpace(s)) == Identifier(s)
  {
  }

  /** Parse a target condition; the parser accepts it exactly as the grammar does. */
  method ParseCondition(input: string) returns (r: Result<CfgExpr, CfgError>)
    ensures r == Condition(input)
  {
    var parser := new CfgParser(input);
    parser.SkipWhitespace();
    var name := parser.ParseIdentifier();
    if name.Err? {
      return Err(name.error);
    }
    if name.value != "cfg" {
      return Err(Unsupported);
    }
    parser.SkipWhitespace();
    var present := parser.Consume('(');
    if !present {
      return Err(Syntax);
    }
    var e := parser.ParseExpression();
    if e.Err? {
      return e;
    }
    r := parser.ParseClosing(e.value);
  }
}
