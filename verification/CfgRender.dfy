/** Rendering of cfg expressions as GN conditions, and the proof that GN reads the same condition back. */
module CfgRender {
  import opened Wrappers
  import opened CfgParsing
  import G = GnLanguage

  // ----- rendering, as the build bridge writes it -----

  function Either(a: string, b: string): string {
    "(" + a + " || " + b + ")"
  }

  function OsCondition(os: string): Option<string> {
    if os == "windows" then Some("is_win")
    else if os == "macos" then Some("is_mac")
    else if os == "ios" then Some("is_ios")
    else if os == "watchos" then Some("is_watchos")
    else if os == "android" then Some("is_android")
    else if os == "fuchsia" then Some("is_fuchsia")
    else if os == "emscripten" then Some("is_wasm")
    else if os == "linux" then Some(Either("is_linux", "is_chromeos"))
    else None
  }

  function ArchCpu(arch: string): Option<string> {
    if arch == "x86" then Some("x86")
    else if arch == "x86_64" then Some("x64")
    else if arch == "arm" then Some("arm")
    else if arch == "aarch64" then Some("arm64")
    else if arch == "mips" then Some("mipsel")
    else if arch == "mips64" then Some("mips64el")
    else if arch == "s390x" then Some("s390x")
    else if arch == "powerpc64" then Some("ppc64")
    else if arch == "riscv64" then Some("riscv64")
    else if arch == "loongarch64" then Some("loong64")
    else if arch == "wasm32" then Some("wasm")
    else None
  }

  function WidthCpus(width: string): Option<seq<string>> {
    if width == "32" then Some(["x86", "arm", "mipsel"])
    else if width == "64" then
      Some(["x64", "arm64", "arm64e", "mips64el", "s390x", "ppc64", "riscv64", "loong64"])
    else None
  }

  function CpuCondition(cpu: string): string {
    "current_cpu == \"" + cpu + "\""
  }

  function Joined(parts: seq<string>, operator: string): string {
    if parts == [] then ""
    else if |parts| == 1 then parts[0]
    else parts[0] + (" " + operator + " ") + Joined(parts[1..], operator)
  }

  function CpuConditions(cpus: seq<string>): seq<string> {
    seq(|cpus|, i requires 0 <= i < |cpus| => CpuCondition(cpus[i]))
  }

  /** The GN condition of an expression; unsupported keys and values have none. */
  function Render(e: CfgExpr): Result<string, CfgError>
    decreases e, 1
  {
    match e
    case Flag(name) => if name == "windows" then Ok("is_win") else Err(Unsupported)
    case Value(key, value) =>
      if key == "target_os" then
        match OsCondition(value) case Some(c) => Ok(c) case None => Err(Unsupported)
      else if key == "target_arch" then
        match ArchCpu(value) case Some(cpu) => Ok(CpuCondition(cpu)) case None => Err(Unsupported)
      else if key == "target_env" && value == "msvc" then Ok("is_win")
      else if key == "target_vendor" && value == "apple" then Ok(Either("is_mac", "is_ios"))
      else if key == "target_pointer_width" then
        match WidthCpus(value)
        case Some(cpus) => Ok("(" + Joined(CpuConditions(cpus), "||") + ")")
        case None => Err(Unsupported)
      else Err(Unsupported)
    case All(arguments) => RenderJoin(arguments, "&&")
    case Any(arguments) => RenderJoin(arguments, "||")
    case Not(argument) =>
      match Render(argument) case Ok(c) => Ok("!(" + c + ")") case Err(x) => Err(x)
  }

  function RenderJoin(arguments: seq<CfgExpr>, operator: string): Result<string, CfgError>
    decreases arguments, 1
  {
    match RenderAll(arguments)
    case Err(x) => Err(x)
    case Ok(parts) => if |parts| == 1 then Ok(parts[0]) else Ok("(" + Joined(parts, operator) + ")")
  }

  function RenderAll(arguments: seq<CfgExpr>): (r: Result<seq<string>, CfgError>)
    ensures r.Ok? ==> |r.value| == |arguments|
    decreases arguments, 0
  {
    if arguments == [] then Ok([])
    else
      match Render(arguments[0])
      case Err(x) => Err(x)
      case Ok(c) =>
        match RenderAll(arguments[1..])
        case Ok(parts) => Ok([c] + parts)
        case Err(x) => Err(x)
  }

  // ----- the shape of a condition -----

  datatype Operator = AndOp | OrOp

  datatype Shape =
    | Named(name: string)
    | Cpu(cpu: string)
    | Group(operator: Operator, parts: Parts)
    | Negated(inner: Shape)

  /** At least one part. */
  datatype Parts = One(only: Shape) | More(first: Shape, rest: Parts)

  predicate IsName(s: string) {
    s != "" && forall i :: 0 <= i < |s| ==> G.IsNameChar(s[i])
  }

  predicate Regular(s: Shape) {
    match s
    case Named(name) => IsName(name)
    case Cpu(cpu) => IsName(cpu)
    case Group(_, parts) => parts.More? && RegularParts(parts)
    case Negated(inner) => Regular(inner)
  }

  predicate RegularParts(ps: Parts) {
    match ps
    case One(only) => Regular(only)
    case More(first, rest) => Regular(first) && RegularParts(rest)
  }

  function OperatorText(o: Operator): string {
    if o.AndOp? then "&&" else "||"
  }

  function OperatorToken(o: Operator): G.Token {
    if o.AndOp? then G.AndAnd else G.OrOr
  }

  function ShapeText(s: Shape): string
    decreases s
  {
    match s
    case Named(name) => name
    case Cpu(cpu) => CpuCondition(cpu)
    case Group(o, parts) => "(" + PartsText(o, parts) + ")"
    case Negated(inner) => "!(" + ShapeText(inner) + ")"
  }

  function PartsText(o: Operator, ps: Parts): string
    decreases ps
  {
    match ps
    case One(only) => ShapeText(only)
    case More(first, rest) => ShapeText(first) + (" " + OperatorText(o) + " ") + PartsText(o, rest)
  }

  function ShapeTokens(s: Shape): seq<G.Token>
    decreases s
  {
    match s
    case Named(name) => [G.Name(name)]
    case Cpu(cpu) => [G.Name("current_cpu"), G.EqualEqual, G.Text(cpu)]
    case Group(o, parts) => [G.LParen] + PartsTokens(o, parts) + [G.RParen]
    case Negated(inner) => [G.Bang, G.LParen] + ShapeTokens(inner) + [G.RParen]
  }

  function PartsTokens(o: Operator, ps: Parts): seq<G.Token>
    decreases ps
  {
    match ps
    case One(only) => ShapeTokens(only)
    case More(first, rest) => ShapeTokens(first) + [OperatorToken(o)] + PartsTokens(o, rest)
  }

  function ShapeExpr(s: Shape): G.Expr
    decreases s
  {
    match s
    case Named(name) => G.Var(name)
    case Cpu(cpu) => G.Eq(G.Var("current_cpu"), G.Str(cpu))
    case Group(o, parts) => PartsExpr(o, parts)
    case Negated(inner) => G.Neg(ShapeExpr(inner))
  }

  function PartsExpr(o: Operator, ps: Parts): G.Expr
    decreases ps
  {
    match ps
    case One(only) => ShapeExpr(only)
    case More(first, rest) =>
      if o.AndOp? then G.And(ShapeExpr(first), PartsExpr(o, rest)) else G.Or(ShapeExpr(first), PartsExpr(o, rest))
  }

  // ----- reading tokens back from text -----

  lemma {:induction false} NameSpanOf(name: string, rest: string)
    requires forall i :: 0 <= i < |name| ==> G.IsNameChar(name[i])
    requires rest == "" || !G.IsNameChar(rest[0])
    ensures G.NameSpan(name + rest) == |name|
  {
    if name == "" {
      assert name + rest == rest;
    } else {
      assert (name + rest)[1..] == name[1..] + rest;
      NameSpanOf(name[1..], rest);
    }
  }

  lemma LexName(name: string, rest: string)
    requires IsName(name) && (rest == "" || !G.IsNameChar(rest[0]))
    ensures G.Lex(name + rest) == G.Before([G.Name(name)], G.Lex(rest))
  {
    NameSpanOf(name, rest);
    assert (name + rest)[0] == name[0];
    assert (name + rest)[..|name|] == name && (name + rest)[|name|..] == rest;
  }

  lemma {:induction false} LexSymbol(c: char, rest: string)
    requires c in "(){}[],!"
    ensures G.Lex([c] + rest) == G.Before([G.Symbol(c).value], G.Lex(rest))
  {
    assert ([c] + rest)[1..] == rest;
  }

  lemma LexPair(a: char, b: char, rest: string)
    requires G.Pair(a, b).Some?
    ensures G.Lex([a, b] + rest) == G.Before([G.Pair(a, b).value], G.Lex(rest))
  {
    assert ([a, b] + rest)[2..] == rest;
  }

  lemma LexBlank(c: char, rest: string)
    requires G.IsBlank(c)
    ensures G.Lex([c] + rest) == G.Lex(rest)
  {
    assert ([c] + rest)[1..] == rest;
  }

  lemma {:induction false} StringEndPlain(s: string, rest: string)
    requires forall i :: 0 <= i < |s| ==> G.IsNameChar(s[i])
    ensures G.StringEnd(s + "\"" + rest) == Some((s, rest))
  {
    var text := s + "\"" + rest;
    if s == "" {
      assert text[1..] == rest;
    } else {
      assert text[1..] == s[1..] + "\"" + rest;
      StringEndPlain(s[1..], rest);
      assert s == [s[0]] + s[1..];
    }
  }

  lemma LexText(s: string, rest: string)
    requires forall i :: 0 <= i < |s| ==> G.IsNameChar(s[i])
    ensures G.Lex("\"" + s + "\"" + rest) == G.Before([G.Text(s)], G.Lex(rest))
  {
    var text := "\"" + s + "\"" + rest;
    assert text[1..] == s + "\"" + rest;
    StringEndPlain(s, rest);
  }

  lemma BeforeBefore(a: seq<G.Token>, b: seq<G.Token>, rest: Option<seq<G.Token>>)
    ensures G.Before(a, G.Before(b, rest)) == G.Before(a + b, rest)
  {
    if rest.Some? {
      assert a + (b + rest.value) == (a + b) + rest.value;
    }
  }

  predicate Ends(rest: string) {
    rest == "" || !G.IsNameChar(rest[0])
  }

  lemma LexCpu(cpu: string, rest: string)
    requires IsName(cpu)
    ensures G.Lex(CpuCondition(cpu) + rest) == G.Before(ShapeTokens(Cpu(cpu)), G.Lex(rest))
  {
    var quoted := "\"" + cpu + "\"" + rest;
    var a := " " + ("==" + (" " + quoted));
    assert CpuCondition(cpu) + rest == "current_cpu" + a;
    LexName("current_cpu", a);
    LexBlank(' ', "==" + (" " + quoted));
    LexPair('=', '=', " " + quoted);
    LexBlank(' ', quoted);
    LexText(cpu, rest);
    BeforeBefore([G.EqualEqual], [G.Text(cpu)], G.Lex(rest));
    BeforeBefore([G.Name("current_cpu")], [G.EqualEqual] + [G.Text(cpu)], G.Lex(rest));
    assert [G.Name("current_cpu")] + ([G.EqualEqual] + [G.Text(cpu)]) == ShapeTokens(Cpu(cpu));
  }

  lemma LexParenthesized(inner: string, tokens: seq<G.Token>, rest: string)
    requires G.Lex(inner + (")" + rest)) == G.Before(tokens, G.Lex(")" + rest))
    ensures G.Lex("(" + inner + ")" + rest) == G.Before([G.LParen] + tokens + [G.RParen], G.Lex(rest))
  {
    assert "(" + inner + ")" + rest == "(" + (inner + (")" + rest));
    LexSymbol('(', inner + (")" + rest));
    LexSymbol(')', rest);
    BeforeBefore(tokens, [G.RParen], G.Lex(rest));
    BeforeBefore([G.LParen], tokens + [G.RParen], G.Lex(rest));
    assert [G.LParen] + (tokens + [G.RParen]) == [G.LParen] + tokens + [G.RParen];
  }

  lemma {:induction false} LexNegated(inner: string, tokens: seq<G.Token>, rest: string)
    requires G.Lex(inner + (")" + rest)) == G.Before(tokens, G.Lex(")" + rest))
    ensures G.Lex("!(" + inner + ")" + rest) == G.Before([G.Bang, G.LParen] + tokens + [G.RParen], G.Lex(rest))
  {
    LexParenthesized(inner, tokens, rest);
    assert "!(" + inner + ")" + rest == "!" + ("(" + inner + ")" + rest);
    LexSymbol('!', "(" + inner + ")" + rest);
    BeforeBefore([G.Bang], [G.LParen] + tokens + [G.RParen], G.Lex(rest));
    assert [G.Bang] + ([G.LParen] + tokens + [G.RParen]) == [G.Bang, G.LParen] + tokens + [G.RParen];
  }

  lemma LexOperator(o: Operator, text: string)
    ensures G.Lex(" " + OperatorText(o) + " " + text) == G.Before([OperatorToken(o)], G.Lex(text))
  {
    var c := OperatorText(o)[0];
    assert OperatorText(o) == [c, c];
    assert " " + OperatorText(o) + " " + text == " " + ([c, c] + (" " + text));
    LexBlank(' ', [c, c] + (" " + text));
    LexPair(c, c, " " + text);
    LexBlank(' ', text);
  }

  /** The text of a regular condition lexes to its tokens, whatever follows behind a word boundary. */
  lemma {:induction false} LexShape(s: Shape, rest: string)
    requires Regular(s) && Ends(rest)
    ensures G.Lex(ShapeText(s) + rest) == G.Before(ShapeTokens(s), G.Lex(rest))
    decreases s
  {
    match s
    case Named(name) => LexName(name, rest);
    case Cpu(cpu) => LexCpu(cpu, rest);
    case Group(o, parts) =>
      LexParts(o, parts, ")" + rest);
      LexParenthesized(PartsText(o, parts), PartsTokens(o, parts), rest);
    case Negated(inner) =>
      LexShape(inner, ")" + rest);
      LexNegated(ShapeText(inner), ShapeTokens(inner), rest);
  }

  lemma {:induction false} PartsGrouped(o: Operator, first: Shape, others: Parts, rest: string)
    ensures PartsText(o, More(first, others)) + rest ==
            ShapeText(first) + (" " + OperatorText(o) + " " + (PartsText(o, others) + rest))
  {
    var start, between := ShapeText(first), " " + OperatorText(o) + " ";
    Associate(start + between, PartsText(o, others), rest);
    Associate(start, between, PartsText(o, others) + rest);
  }

  lemma {:induction false} LexParts(o: Operator, ps: Parts, rest: string)
    requires RegularParts(ps) && Ends(rest)
    ensures G.Lex(PartsText(o, ps) + rest) == G.Before(PartsTokens(o, ps), G.Lex(rest))
    decreases ps
  {
    match ps
    case One(only) => LexShape(only, rest);
    case More(first, others) =>
      var text := PartsText(o, others) + rest;
      var tail := " " + OperatorText(o) + " " + text;
      PartsGrouped(o, first, others, rest);
      LexShape(first, tail);
      LexOperator(o, text);
      LexParts(o, others, rest);
      BeforeBefore([OperatorToken(o)], PartsTokens(o, others), G.Lex(rest));
      BeforeBefore(ShapeTokens(first), [OperatorToken(o)] + PartsTokens(o, others), G.Lex(rest));
      assert ShapeTokens(first) + ([OperatorToken(o)] + PartsTokens(o, others)) == PartsTokens(o, ps);
  }

  // ----- reading the expression back from tokens -----

  predicate NotOperator(rest: seq<G.Token>) {
    !G.Starts(rest, G.EqualEqual) && !G.Starts(rest, G.AndAnd) && !G.Starts(rest, G.OrOr)
  }

  lemma EqIsOr(ts: seq<G.Token>, e: G.Expr, rest: seq<G.Token>)
    requires G.ParseEq(ts) == Some((e, rest)) && NotOperator(rest)
    ensures G.ParseOr(ts) == Some((e, rest))
  {
  }

  lemma ParseCpu(cpu: string, rest: seq<G.Token>)
    ensures G.ParseEq(ShapeTokens(Cpu(cpu)) + rest) == Some((ShapeExpr(Cpu(cpu)), rest))
  {
    var ts := ShapeTokens(Cpu(cpu)) + rest;
    assert ts[1..] == [G.EqualEqual, G.Text(cpu)] + rest;
    assert ts[1..][1..] == [G.Text(cpu)] + rest;
    assert ([G.Text(cpu)] + rest)[1..] == rest;
  }

  lemma ParseNegated(inner: seq<G.Token>, e: G.Expr, rest: seq<G.Token>)
    requires G.ParseOr(inner + ([G.RParen] + rest)) == Some((e, [G.RParen] + rest))
    ensures G.ParseUnary([G.Bang, G.LParen] + inner + [G.RParen] + rest) == Some((G.Neg(e), rest))
  {
    ParseParenthesized(inner, e, rest);
    var ts := [G.Bang, G.LParen] + inner + [G.RParen] + rest;
    assert ts[1..] == [G.LParen] + (inner + ([G.RParen] + rest));
  }

  /** A condition is one operand of `==`-level: it needs no parentheses beside `&&` and `||`. */
  lemma {:induction false} ParseShape(s: Shape, rest: seq<G.Token>)
    requires Regular(s) && !G.Starts(rest, G.EqualEqual)
    ensures G.ParseEq(ShapeTokens(s) + rest) == Some((ShapeExpr(s), rest))
    decreases s, 0
  {
    match s
    case Named(name) =>
      assert (ShapeTokens(s) + rest)[1..] == rest;
    case Cpu(cpu) => ParseCpu(cpu, rest);
    case Group(o, parts) =>
      ParseGroup(o, parts, rest);
      ParseParenthesized(PartsTokens(o, parts), PartsExpr(o, parts), rest);
      assert ShapeTokens(s) + rest == [G.LParen] + (PartsTokens(o, parts) + ([G.RParen] + rest));
    case Negated(inner) =>
      var tail := [G.RParen] + rest;
      ParseShape(inner, tail);
      EqIsOr(ShapeTokens(inner) + tail, ShapeExpr(inner), tail);
      ParseNegated(ShapeTokens(inner), ShapeExpr(inner), rest);
  }

  lemma ParseParenthesized(inner: seq<G.Token>, e: G.Expr, rest: seq<G.Token>)
    requires G.ParseOr(inner + ([G.RParen] + rest)) == Some((e, [G.RParen] + rest))
    ensures G.ParseUnary([G.LParen] + (inner + ([G.RParen] + rest))) == Some((e, rest))
  {
    assert ([G.LParen] + (inner + ([G.RParen] + rest)))[1..] == inner + ([G.RParen] + rest);
    assert ([G.RParen] + rest)[1..] == rest;
  }

  lemma {:induction false} ParseGroup(o: Operator, ps: Parts, rest: seq<G.Token>)
    requires RegularParts(ps)
    ensures G.ParseOr(PartsTokens(o, ps) + ([G.RParen] + rest)) == Some((PartsExpr(o, ps), [G.RParen] + rest))
    decreases ps, 1
  {
    if o.AndOp? {
      ParseAndParts(ps, [G.RParen] + rest);
    } else {
      ParseOrParts(ps, [G.RParen] + rest);
    }
  }

  lemma {:induction false} ParseAndParts(ps: Parts, rest: seq<G.Token>)
    requires RegularParts(ps) && NotOperator(rest)
    ensures G.ParseAnd(PartsTokens(AndOp, ps) + rest) == Some((PartsExpr(AndOp, ps), rest))
    decreases ps, 0
  {
    match ps
    case One(only) => ParseShape(only, rest);
    case More(first, others) =>
      var tail := [G.AndAnd] + (PartsTokens(AndOp, others) + rest);
      ParseShape(first, tail);
      ParseAndParts(others, rest);
      assert PartsTokens(AndOp, ps) + rest == ShapeTokens(first) + tail;
      assert tail[1..] == PartsTokens(AndOp, others) + rest;
  }

  lemma {:induction false} ParseOrParts(ps: Parts, rest: seq<G.Token>)
    requires RegularParts(ps) && NotOperator(rest)
    ensures G.ParseOr(PartsTokens(OrOp, ps) + rest) == Some((PartsExpr(OrOp, ps), rest))
    decreases ps, 0
  {
    match ps
    case One(only) => ParseShape(only, rest);
    case More(first, others) =>
      var tail := [G.OrOr] + (PartsTokens(OrOp, others) + rest);
      ParseShape(first, tail);
      ParseOrParts(others, rest);
      assert PartsTokens(OrOp, ps) + rest == ShapeTokens(first) + tail;
      assert tail[1..] == PartsTokens(OrOp, others) + rest;
  }

  /** GN reads a whole condition text as exactly the condition meant. */
  lemma ReadCondition(s: Shape)
    requires Regular(s)
    ensures G.Lex(ShapeText(s)) == Some(ShapeTokens(s))
    ensures G.ParseOr(ShapeTokens(s)) == Some((ShapeExpr(s), []))
  {
    LexShape(s, "");
    assert ShapeText(s) + "" == ShapeText(s);
    assert ShapeTokens(s) + [] == ShapeTokens(s);
    ParseShape(s, []);
  }

  // ----- what a rendered expression is -----

  /** The shape of a rendered leaf. */
  function LeafShape(e: CfgExpr): (r: Option<Shape>)
    requires e.Flag? || e.Value?
  {
    match e
    case Flag(name) => if name == "windows" then Some(Named("is_win")) else None
    case Value(key, value) =>
      if key == "target_os" then
        if value == "linux" then Some(Group(OrOp, More(Named("is_linux"), One(Named("is_chromeos")))))
        else match OsCondition(value) case Some(c) => Some(Named(c)) case None => None
      else if key == "target_arch" then
        match ArchCpu(value) case Some(cpu) => Some(Cpu(cpu)) case None => None
      else if key == "target_env" && value == "msvc" then Some(Named("is_win"))
      else if key == "target_vendor" && value == "apple" then
        Some(Group(OrOp, More(Named("is_mac"), One(Named("is_ios")))))
      else if key == "target_pointer_width" then
        match WidthCpus(value) case Some(cpus) => Some(Group(OrOp, CpuParts(cpus))) case None => None
      else None
  }

  function CpuParts(cpus: seq<string>): Parts
    requires cpus != []
  {
    if |cpus| == 1 then One(Cpu(cpus[0])) else More(Cpu(cpus[0]), CpuParts(cpus[1..]))
  }

  function ShapeOf(e: CfgExpr): (r: Option<Shape>)
    decreases e, 1
  {
    match e
    case Flag(_) => LeafShape(e)
    case Value(_, _) => LeafShape(e)
    case All(arguments) => GroupOf(AndOp, arguments)
    case Any(arguments) => GroupOf(OrOp, arguments)
    case Not(argument) =>
      match ShapeOf(argument) case Some(s) => Some(Negated(s)) case None => None
  }

  /** A single argument stands alone; several are grouped. */
  function GroupOf(o: Operator, arguments: seq<CfgExpr>): Option<Shape>
    decreases arguments, 1
  {
    if arguments == [] then None
    else
      match PartsOf(arguments)
      case Some(One(s)) => Some(s)
      case Some(ps) => Some(Group(o, ps))
      case None => None
  }

  function PartsOf(arguments: seq<CfgExpr>): (r: Option<Parts>)
    requires arguments != []
    ensures r.Some? ==> (r.value.One? <==> |arguments| == 1)
    decreases arguments, 0
  {
    match ShapeOf(arguments[0])
    case None => None
    case Some(s) =>
      if |arguments| == 1 then Some(One(s))
      else match PartsOf(arguments[1..]) case Some(ps) => Some(More(s, ps)) case None => None
  }

  /** Every operator has an argument, as the parser guarantees. */
  predicate HasArguments(e: CfgExpr) {
    match e
    case Flag(_) => true
    case Value(_, _) => true
    case All(arguments) => arguments != [] && forall a :: a in arguments ==> HasArguments(a)
    case Any(arguments) => arguments != [] && forall a :: a in arguments ==> HasArguments(a)
    case Not(argument) => HasArguments(argument)
  }

  /** The parts of a rendered group, in order. */
  function PartTexts(ps: Parts): seq<string> {
    match ps
    case One(only) => [ShapeText(only)]
    case More(first, rest) => [ShapeText(first)] + PartTexts(rest)
  }

  lemma {:induction false} JoinedParts(o: Operator, ps: Parts)
    ensures Joined(PartTexts(ps), OperatorText(o)) == PartsText(o, ps)
  {
    if ps.More? {
      JoinedParts(o, ps.rest);
      assert PartTexts(ps)[1..] == PartTexts(ps.rest);
    }
  }

  lemma {:induction false} CpuPartTexts(cpus: seq<string>)
    requires cpus != []
    ensures PartTexts(CpuParts(cpus)) == CpuConditions(cpus)
    ensures (forall i :: 0 <= i < |cpus| ==> IsName(cpus[i])) ==> RegularParts(CpuParts(cpus))
    ensures CpuParts(cpus).More? <==> |cpus| > 1
  {
    if |cpus| > 1 {
      CpuPartTexts(cpus[1..]);
      assert CpuConditions(cpus) == [CpuCondition(cpus[0])] + CpuConditions(cpus[1..]);
    }
  }

  lemma OsNames(os: string)
    requires OsCondition(os).Some? && os != "linux"
    ensures IsName(OsCondition(os).value)
  {
  }

  lemma ArchCpuNames(arch: string)
    requires ArchCpu(arch).Some?
    ensures IsName(ArchCpu(arch).value)
  {
  }

  lemma WidthCpuNames(width: string)
    requires WidthCpus(width).Some?
    ensures |WidthCpus(width).value| > 1
    ensures forall i :: 0 <= i < |WidthCpus(width).value| ==> IsName(WidthCpus(width).value[i])
  {
    assert IsName("x86") && IsName("arm") && IsName("mipsel") && IsName("x64") && IsName("arm64") && IsName("arm64e");
    assert IsName("mips64el") && IsName("s390x") && IsName("ppc64") && IsName("riscv64") && IsName("loong64");
  }

  lemma EitherText(a: string, b: string)
    requires IsName(a) && IsName(b)
    ensures var s := Group(OrOp, More(Named(a), One(Named(b))));
            Regular(s) && ShapeText(s) == Either(a, b)
  {
    assert Regular(Named(a)) && Regular(Named(b)) && RegularParts(One(Named(b)));
    assert ShapeText(Named(a)) == a && ShapeText(Named(b)) == b;
    assert PartsText(OrOp, One(Named(b))) == b;
    assert " " + OperatorText(OrOp) + " " == " || ";
    assert PartsText(OrOp, More(Named(a), One(Named(b)))) == a + " || " + b;
  }

  lemma OsRenders(os: string)
    ensures LeafRendersRight(Value("target_os", os))
  {
    if os == "linux" {
      EitherText("is_linux", "is_chromeos");
    } else if OsCondition(os).Some? {
      OsNames(os);
    }
  }

  lemma VendorRenders()
    ensures LeafRendersRight(Value("target_vendor", "apple"))
  {
    EitherText("is_mac", "is_ios");
  }

  ghost predicate LeafRendersRight(e: CfgExpr)
    requires e.Flag? || e.Value?
  {
    match (Render(e), LeafShape(e))
    case (Ok(text), Some(s)) => Regular(s) && ShapeText(s) == text
    case (Err(x), None) => x == Unsupported
    case _ => false
  }

  lemma WidthRenders(width: string)
    requires WidthCpus(width).Some?
    ensures var s := Group(OrOp, CpuParts(WidthCpus(width).value));
            Regular(s) && ShapeText(s) == "(" + Joined(CpuConditions(WidthCpus(width).value), "||") + ")"
  {
    WidthCpuNames(width);
    CpuPartTexts(WidthCpus(width).value);
    JoinedParts(OrOp, CpuParts(WidthCpus(width).value));
  }

  lemma LeafRenders(e: CfgExpr)
    requires e.Flag? || e.Value?
    ensures LeafRendersRight(e)
  {
    if e.Value? {
      if e.key == "target_os" {
        OsRenders(e.value);
      } else if e.key == "target_arch" {
        if ArchCpu(e.value).Some? {
          ArchCpuNames(e.value);
        }
      } else if e.key == "target_vendor" && e.value == "apple" {
        VendorRenders();
      } else if e.key == "target_pointer_width" {
        if WidthCpus(e.value).Some? {
          WidthRenders(e.value);
        }
      }
    }
  }

  /** An expression renders exactly when it has a shape, and its text is the text of that shape. */
  lemma {:induction false} RenderIsShape(e: CfgExpr)
    requires HasArguments(e)
    ensures Render(e).Ok? <==> ShapeOf(e).Some?
    ensures Render(e).Ok? ==> Regular(ShapeOf(e).value) && ShapeText(ShapeOf(e).value) == Render(e).value
    ensures Render(e).Err? ==> Render(e).error == Unsupported
    decreases e, 1
  {
    match e
    case Flag(_) => LeafRenders(e);
    case Value(_, _) => LeafRenders(e);
    case All(arguments) => RenderIsGroup(AndOp, arguments);
    case Any(arguments) => RenderIsGroup(OrOp, arguments);
    case Not(argument) => RenderIsShape(argument);
  }

  lemma {:induction false} RenderIsGroup(o: Operator, arguments: seq<CfgExpr>)
    requires arguments != [] && forall a :: a in arguments ==> HasArguments(a)
    ensures var r := RenderJoin(arguments, OperatorText(o));
            && (r.Ok? <==> GroupOf(o, arguments).Some?)
            && (r.Ok? ==> Regular(GroupOf(o, arguments).value) && ShapeText(GroupOf(o, arguments).value) == r.value)
            && (r.Err? ==> r.error == Unsupported)
    decreases arguments, 1
  {
    RenderIsParts(arguments);
    if PartsOf(arguments).Some? {
      JoinedParts(o, PartsOf(arguments).value);
    }
  }

  lemma {:induction false} RenderIsParts(arguments: seq<CfgExpr>)
    requires arguments != [] && forall a :: a in arguments ==> HasArguments(a)
    ensures RenderAll(arguments).Ok? <==> PartsOf(arguments).Some?
    ensures RenderAll(arguments).Ok? ==>
              RegularParts(PartsOf(arguments).value) &&
                  PartTexts(PartsOf(arguments).value) == RenderAll(arguments).value
    ensures RenderAll(arguments).Err? ==> RenderAll(arguments).error == Unsupported
    decreases arguments, 0
  {
    RenderIsShape(arguments[0]);
    if |arguments| == 1 {
      assert RenderAll(arguments[1..]) == Ok([]);
    } else {
      assert forall a :: a in arguments[1..] ==> a in arguments;
      RenderIsParts(arguments[1..]);
    }
  }

  // ----- meaning -----

  /** Truth of an expression when `holds` decides its leaves. */
  predicate Holds(e: CfgExpr, holds: CfgExpr -> bool) {
    match e
    case Flag(_) => holds(e)
    case Value(_, _) => holds(e)
    case All(arguments) => forall i :: 0 <= i < |arguments| ==> Holds(arguments[i], holds)
    case Any(arguments) => exists i :: 0 <= i < |arguments| && Holds(arguments[i], holds)
    case Not(argument) => !Holds(argument, holds)
  }

  /** Both sides agree on a leaf: the GN condition of the leaf has the leaf's truth value. */
  ghost predicate LeafAgrees(e: CfgExpr, holds: CfgExpr -> bool, scope: G.Scope)
    requires e.Flag? || e.Value?
  {
    LeafShape(e).Some? ==> G.Eval(ShapeExpr(LeafShape(e).value), scope) == Some(G.Bool(holds(e)))
  }

  ghost predicate LeavesAgree(e: CfgExpr, holds: CfgExpr -> bool, scope: G.Scope) {
    match e
    case Flag(_) => LeafAgrees(e, holds, scope)
    case Value(_, _) => LeafAgrees(e, holds, scope)
    case All(arguments) => forall a :: a in arguments ==> LeavesAgree(a, holds, scope)
    case Any(arguments) => forall a :: a in arguments ==> LeavesAgree(a, holds, scope)
    case Not(argument) => LeavesAgree(argument, holds, scope)
  }

  lemma {:induction false} ShapeMeans(e: CfgExpr, holds: CfgExpr -> bool, scope: G.Scope)
    requires ShapeOf(e).Some? && LeavesAgree(e, holds, scope)
    ensures G.Eval(ShapeExpr(ShapeOf(e).value), scope) == Some(G.Bool(Holds(e, holds)))
    decreases e, 1
  {
    match e
    case Flag(_) =>
    case Value(_, _) =>
    case All(arguments) => PartsMeanAll(arguments, holds, scope);
    case Any(arguments) => PartsMeanAny(arguments, holds, scope);
    case Not(argument) => ShapeMeans(argument, holds, scope);
  }

  ghost predicate AllHold(arguments: seq<CfgExpr>, holds: CfgExpr -> bool) {
    forall i :: 0 <= i < |arguments| ==> Holds(arguments[i], holds)
  }

  ghost predicate SomeHolds(arguments: seq<CfgExpr>, holds: CfgExpr -> bool) {
    exists i :: 0 <= i < |arguments| && Holds(arguments[i], holds)
  }

  lemma HeadAndTail(arguments: seq<CfgExpr>, holds: CfgExpr -> bool)
    requires arguments != []
    ensures AllHold(arguments, holds) <==> Holds(arguments[0], holds) && AllHold(arguments[1..], holds)
    ensures SomeHolds(arguments, holds) <==> Holds(arguments[0], holds) || SomeHolds(arguments[1..], holds)
  {
    var others := arguments[1..];
    assert forall i :: 0 <= i < |others| ==> others[i] == arguments[i + 1];
    assert forall i :: 1 <= i < |arguments| ==> arguments[i] == others[i - 1];
  }

  lemma {:induction false} PartsMeanAll(arguments: seq<CfgExpr>, holds: CfgExpr -> bool, scope: G.Scope)
    requires arguments != [] && PartsOf(arguments).Some?
    requires forall a :: a in arguments ==> LeavesAgree(a, holds, scope)
    ensures G.Eval(PartsExpr(AndOp, PartsOf(arguments).value), scope) == Some(G.Bool(AllHold(arguments, holds)))
    decreases arguments, 0
  {
    ShapeMeans(arguments[0], holds, scope);
    HeadAndTail(arguments, holds);
    if |arguments| > 1 {
      assert forall a :: a in arguments[1..] ==> a in arguments;
      PartsMeanAll(arguments[1..], holds, scope);
    }
  }

  lemma {:induction false} PartsMeanAny(arguments: seq<CfgExpr>, holds: CfgExpr -> bool, scope: G.Scope)
    requires arguments != [] && PartsOf(arguments).Some?
    requires forall a :: a in arguments ==> LeavesAgree(a, holds, scope)
    ensures G.Eval(PartsExpr(OrOp, PartsOf(arguments).value), scope) == Some(G.Bool(SomeHolds(arguments, holds)))
    decreases arguments, 0
  {
    ShapeMeans(arguments[0], holds, scope);
    HeadAndTail(arguments, holds);
    if |arguments| > 1 {
      assert forall a :: a in arguments[1..] ==> a in arguments;
      PartsMeanAny(arguments[1..], holds, scope);
    }
  }

  /** GN, reading the rendered text with its own precedence, computes the truth of the cfg expression. */
  lemma RenderMeans(e: CfgExpr, holds: CfgExpr -> bool, scope: G.Scope)
    requires HasArguments(e) && Render(e).Ok? && LeavesAgree(e, holds, scope)
    ensures G.Lex(Render(e).value).Some?
    ensures var parsed := G.ParseOr(G.Lex(Render(e).value).value);
            parsed.Some? && parsed.value.1 == [] && G.Eval(parsed.value.0, scope) == Some(G.Bool(Holds(e, holds)))
  {
    RenderIsShape(e);
    ReadCondition(ShapeOf(e).value);
    ShapeMeans(e, holds, scope);
  }
}
