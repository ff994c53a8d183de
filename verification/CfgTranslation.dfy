/** Translation of a cfg target condition to a GN condition, from text to text. */
module CfgTranslation {
  import opened Wrappers
  import opened CfgParsing
  import opened CfgRender
  import P = CfgPlatforms
  import G = GnLanguage

  function Translate(condition: string): Result<string, CfgError> {
    match Condition(condition)
    case Ok(e) => Render(e)
    case Err(x) => Err(x)
  }

  lemma {:induction false} ParsedHasArguments(s: string)
    ensures Expression(s).Ok? ==> HasArguments(Expression(s).value.0)
    decreases |s|, 0
  {
    if Expression(s).Ok? {
      var t := SkipSpace(Identifier(s).value.1);
      if StartsWith(t, '(') {
        ParsedArgumentsHave(t[1..]);
      }
    }
  }

  lemma {:induction false} ParsedArgumentsHave(s: string)
    ensures Arguments(s).Ok? ==> forall a :: a in Arguments(s).value.0 ==> HasArguments(a)
    decreases |s|, 1
  {
    var t := SkipSpace(s);
    if Arguments(s).Ok? && !StartsWith(t, ')') {
      ParsedHasArguments(t);
      var u := SkipSpace(Expression(t).value.1);
      ParsedArgumentsHave(u[1..]);
    }
  }

  lemma ParsedCondition(condition: string)
    requires Condition(condition).Ok?
    ensures HasArguments(Condition(condition).value)
  {
    var behind := Identifier(SkipSpace(condition)).value.1;
    ParsedHasArguments(SkipSpace(behind)[1..]);
  }

  /** The text lexes and parses as one GN expression and has this value in the scope. */
  ghost predicate Computes(text: string, scope: G.Scope, value: bool) {
    && G.Lex(text).Some?
    && var parsed := G.ParseOr(G.Lex(text).value);
       parsed.Some? && parsed.value.1 == [] && G.Eval(parsed.value.0, scope) == Some(G.Bool(value))
  }

  /** GN computes, from the translated text, the truth of the condition that was written for Cargo. */
  lemma TranslationMeans(condition: string, holds: CfgExpr -> bool, scope: G.Scope)
    requires Translate(condition).Ok?
    requires LeavesAgree(Condition(condition).value, holds, scope)
    ensures HasArguments(Condition(condition).value)
    ensures Computes(Translate(condition).value, scope, Holds(Condition(condition).value, holds))
  {
    ParsedCondition(condition);
    RenderMeans(Condition(condition).value, holds, scope);
  }

  /** A condition is translated exactly when it parses and each of its leaves holds on some platform. */
  lemma TranslatesWhenKnown(condition: string)
    ensures Translate(condition).Ok? <==> Condition(condition).Ok? && P.LeavesKnown(Condition(condition).value)
    ensures Condition(condition).Ok? && Translate(condition).Err? ==> Translate(condition).error == Unsupported
  {
    if Condition(condition).Ok? {
      ParsedCondition(condition);
      RenderIsShape(Condition(condition).value);
      P.SupportedExpression(Condition(condition).value);
    }
  }

  /** Parse and render a condition: the conditions that parse and whose leaves all hold on some platform are accepted,
      and what is emitted means the same to GN in every scope that agrees on the leaves. */
  method TranslateTargetCondition(condition: string) returns (r: Result<string, CfgError>)
    ensures r == Translate(condition)
    ensures r.Ok? <==> Condition(condition).Ok? && P.LeavesKnown(Condition(condition).value)
    ensures Condition(condition).Err? ==> r == Err(Condition(condition).error)
    ensures Condition(condition).Ok? && r.Err? ==> r.error == Unsupported
    ensures r.Ok? ==>
              Condition(condition).Ok? &&
              forall holds, scope :: LeavesAgree(Condition(condition).value, holds, scope) ==>
                                       Computes(r.value, scope, Holds(Condition(condition).value, holds))
  {
    TranslatesWhenKnown(condition);
    var e := ParseCondition(condition);
    if e.Err? {
      return Err(e.error);
    }
    r := Render(e.value);
    if r.Ok? {
      forall holds, scope | LeavesAgree(e.value, holds, scope)
        ensures Computes(r.value, scope, Holds(e.value, holds))
      {
        TranslationMeans(condition, holds, scope);
      }
    }
  }
}
