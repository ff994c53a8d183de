/** The part of the GN language generated files use: tokens, expressions, conditional list statements, evaluation. */
module GnLanguage {
  import opened Wrappers

  datatype Token =
    | Name(name: string) | Text(text: string)
    | LParen | RParen | LBrace | RBrace | LBracket | RBracket | Comma
    | Bang | AndAnd | OrOr | EqualEqual | Assign | PlusAssign

  predicate IsBlank(c: char) {
    c == ' ' || c == '\t' || c == '\n' || c == '\r'
  }

  predicate IsNameChar(c: char) {
    'a' <= c <= 'z' || 'A' <= c <= 'Z' || '0' <= c <= '9' || c == '_'
  }

  // ----- tokens -----

  function NameSpan(s: string): (n: nat)
    ensures n <= |s| && (forall i :: 0 <= i < n ==> IsNameChar(s[i])) && (n < |s| ==> !IsNameChar(s[n]))
  {
    if s != "" && IsNameChar(s[0]) then 1 + NameSpan(s[1..]) else 0
  }

  /** The string up to its closing quote; `\\`, `\"` and `\$` are escapes, a bare `$` would be an expansion. */
  function StringEnd(s: string): (r: Option<(string, string)>)
    ensures r.Some? ==> |r.value.1| < |s|
  {
    if s == "" || s[0] == '$' then None
    else if s[0] == '"' then Some(("", s[1..]))
    else if s[0] == '\\' then
      if |s| >= 2 && (s[1] == '\\' || s[1] == '"' || s[1] == '$') then
        match StringEnd(s[2..])
        case Some((t, rest)) => Some(([s[1]] + t, rest))
        case None => None
      else None
    else
      match StringEnd(s[1..])
      case Some((t, rest)) => Some(([s[0]] + t, rest))
      case None => None
  }

  function Symbol(c: char): Option<Token> {
    if c == '(' then Some(LParen) else if c == ')' then Some(RParen)
    else if c == '{' then Some(LBrace) else if c == '}' then Some(RBrace)
    else if c == '[' then Some(LBracket) else if c == ']' then Some(RBracket)
    else if c == ',' then Some(Comma) else if c == '!' then Some(Bang)
    else if c == '=' then Some(Assign)
    else None
  }

  function Pair(a: char, b: char): Option<Token> {
    if a == '&' && b == '&' then Some(AndAnd)
    else if a == '|' && b == '|' then Some(OrOr)
    else if a == '=' && b == '=' then Some(EqualEqual)
    else if a == '+' && b == '=' then Some(PlusAssign)
    else None
  }

  /** The first token and the text behind it. */
  function Next(s: string): (r: Option<(Token, string)>)
    requires s != "" && !IsBlank(s[0])
    ensures r.Some? ==> |r.value.1| < |s|
  {
    if IsNameChar(s[0]) then
      var n := NameSpan(s);
      Some((Name(s[..n]), s[n..]))
    else if s[0] == '"' then
      match StringEnd(s[1..])
      case Some((t, rest)) => Some((Text(t), rest))
      case None => None
    else if |s| >= 2 && Pair(s[0], s[1]).Some? then Some((Pair(s[0], s[1]).value, s[2..]))
    else
      match Symbol(s[0])
      case Some(t) => Some((t, s[1..]))
      case None => None
  }

  function Lex(s: string): Option<seq<Token>>
    decreases |s|
  {
    if s == "" then Some([])
    else if IsBlank(s[0]) then Lex(s[1..])
    else
      match Next(s)
      case None => None
      case Some((t, rest)) => Before([t], Lex(rest))
  }

  function Before(front: seq<Token>, rest: Option<seq<Token>>): Option<seq<Token>> {
    match rest
    case Some(ts) => Some(front + ts)
    case None => None
  }

  // ----- expressions, by precedence: `!` binds tightest, then `==`, `&&`, `||` -----

  datatype Expr =
    | Var(name: string) | Str(text: string)
    | Neg(e: Expr) | Eq(l: Expr, r: Expr) | And(l: Expr, r: Expr) | Or(l: Expr, r: Expr)

  type Parsed = Option<(Expr, seq<Token>)>

  predicate Starts(ts: seq<Token>, t: Token) {
    ts != [] && ts[0] == t
  }

  function ParseUnary(ts: seq<Token>): (r: Parsed)
    ensures r.Some? ==> |r.value.1| < |ts|
    decreases |ts|, 0
  {
    if ts == [] then None
    else if ts[0].Bang? then
      match ParseUnary(ts[1..])
      case Some((e, rest)) => Some((Neg(e), rest))
      case None => None
    else if ts[0].Name? then Some((Var(ts[0].name), ts[1..]))
    else if ts[0].Text? then Some((Str(ts[0].text), ts[1..]))
    else if ts[0].LParen? then
      match ParseOr(ts[1..])
      case Some((e, rest)) => if Starts(rest, RParen) then Some((e, rest[1..])) else None
      case None => None
    else None
  }

  function ParseEq(ts: seq<Token>): (r: Parsed)
    ensures r.Some? ==> |r.value.1| < |ts|
    decreases |ts|, 1
  {
    match ParseUnary(ts)
    case None => None
    case Some((l, rest)) =>
      if Starts(rest, EqualEqual) then
        match ParseUnary(rest[1..])
        case Some((r, more)) => Some((Eq(l, r), more))
        case None => None
      else Some((l, rest))
  }

  function ParseAnd(ts: seq<Token>): (r: Parsed)
    ensures r.Some? ==> |r.value.1| < |ts|
    decreases |ts|, 2
  {
    match ParseEq(ts)
    case None => None
    case Some((l, rest)) =>
      if Starts(rest, AndAnd) then
        match ParseAnd(rest[1..])
        case Some((r, more)) => Some((And(l, r), more))
        case None => None
      else Some((l, rest))
  }

  function ParseOr(ts: seq<Token>): (r: Parsed)
    ensures r.Some? ==> |r.value.1| < |ts|
    decreases |ts|, 3
  {
    match ParseAnd(ts)
    case None => None
    case Some((l, rest)) =>
      if Starts(rest, OrOr) then
        match ParseOr(rest[1..])
        case Some((r, more)) => Some((Or(l, r), more))
        case None => None
      else Some((l, rest))
  }

  // ----- values -----

  datatype GnValue = Bool(b: bool) | Chars(s: string)

  type Scope = map<string, GnValue>

  /** `&&`, `||` and `!` want booleans; an unset name or a mismatch has no value. */
  function Eval(e: Expr, scope: Scope): Option<GnValue> {
    match e
    case Var(x) => if x in scope then Some(scope[x]) else None
    case Str(t) => Some(Chars(t))
    case Neg(f) =>
      (match Eval(f, scope)
       case Some(Bool(b)) => Some(Bool(!b))
       case _ => None)
    case Eq(l, r) =>
      (match (Eval(l, scope), Eval(r, scope))
       case (Some(v), Some(w)) => Some(Bool(v == w))
       case _ => None)
    case And(l, r) =>
      (match (Eval(l, scope), Eval(r, scope))
       case (Some(Bool(b)), Some(Bool(c))) => Some(Bool(b && c))
       case _ => None)
    case Or(l, r) =>
      (match (Eval(l, scope), Eval(r, scope))
       case (Some(Bool(b)), Some(Bool(c))) => Some(Bool(b || c))
       case _ => None)
  }

  // ----- list statements -----

  datatype Statement =
    | SetList(name: string, labels: seq<string>)
    | AppendList(name: string, labels: seq<string>)
    | IfBlock(condition: Expr, body: seq<Statement>)

  /** Labels separated by commas, the last one optionally followed by a comma, up to the closing bracket. */
  function ParseLabels(ts: seq<Token>): (r: Option<(seq<string>, seq<Token>)>)
    ensures r.Some? ==> |r.value.1| < |ts|
    decreases |ts|
  {
    if ts == [] then None
    else if ts[0].RBracket? then Some(([], ts[1..]))
    else if !ts[0].Text? then None
    else if Starts(ts[1..], RBracket) then Some(([ts[0].text], ts[2..]))
    else if Starts(ts[1..], Comma) then
      match ParseLabels(ts[2..])
      case Some((labels, rest)) => Some(([ts[0].text] + labels, rest))
      case None => None
    else None
  }

  function ParseStatement(ts: seq<Token>): (r: Option<(Statement, seq<Token>)>)
    ensures r.Some? ==> |r.value.1| < |ts|
    decreases |ts|, 0
  {
    if |ts| < 3 || !ts[0].Name? then None
    else if ts[0].name == "if" then
      if !ts[1].LParen? then None
      else
        match ParseOr(ts[2..])
        case None => None
        case Some((condition, rest)) =>
          if |rest| < 2 || !rest[0].RParen? || !rest[1].LBrace? then None
          else
            match ParseBlock(rest[2..])
            case Some((body, more)) => Some((IfBlock(condition, body), more))
            case None => None
    else if ts[1].Assign? && ts[2].LBracket? then
      match ParseLabels(ts[3..])
      case Some((labels, rest)) => Some((SetList(ts[0].name, labels), rest))
      case None => None
    else if ts[1].PlusAssign? && ts[2].LBracket? then
      match ParseLabels(ts[3..])
      case Some((labels, rest)) => Some((AppendList(ts[0].name, labels), rest))
      case None => None
    else None
  }

  /** Statements up to the closing brace. */
  function ParseBlock(ts: seq<Token>): (r: Option<(seq<Statement>, seq<Token>)>)
    ensures r.Some? ==> |r.value.1| < |ts|
    decreases |ts|, 1
  {
    if Starts(ts, RBrace) then Some(([], ts[1..]))
    else
      match ParseStatement(ts)
      case None => None
      case Some((st, rest)) =>
        match ParseBlock(rest)
        case Some((others, more)) => Some(([st] + others, more))
        case None => None
  }

  /** Statements up to the end of the text. */
  function ParseFile(ts: seq<Token>): Option<seq<Statement>>
    decreases |ts|
  {
    if ts == [] then Some([])
    else
      match ParseStatement(ts)
      case None => None
      case Some((st, rest)) =>
        match ParseFile(rest)
        case Some(others) => Some([st] + others)
        case None => None
  }

  type Lists = map<string, seq<string>>

  /** Running a statement; appending wants a list that is set. */
  function Execute(st: Statement, scope: Scope, lists: Lists): Option<Lists>
    decreases st, 1
  {
    match st
    case SetList(name, labels) => Some(lists[name := labels])
    case AppendList(name, labels) => if name in lists then Some(lists[name := lists[name] + labels]) else None
    case IfBlock(condition, body) =>
      match Eval(condition, scope)
      case Some(Bool(true)) => ExecuteAll(body, scope, lists)
      case Some(Bool(false)) => Some(lists)
      case _ => None
  }

  function ExecuteAll(body: seq<Statement>, scope: Scope, lists: Lists): Option<Lists>
    decreases body, 0
  {
    if body == [] then Some(lists)
    else
      match Execute(body[0], scope, lists)
      case Some(next) => ExecuteAll(body[1..], scope, next)
      case None => None
  }
}
