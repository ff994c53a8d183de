/** Mojom files as lists of elements: statements, bodies in braces and other tokens. */
module MojomElements {
  import opened Wrappers
  import opened MojomLexing

  datatype DeclarationKind = Interface | Struct | Union | Enum {
    function Rank(): nat {
      match this
      case Interface => 0
      case Struct => 1
      case Union => 2
      case Enum => 3
    }
  }

  const IMPORT: string := "import"
  const MODULE: string := "module"
  const OPEN: Kind := Punct('{')
  const CLOSE: Kind := Punct('}')

  function Keyword(kind: DeclarationKind): string {
    match kind
    case Interface => "interface"
    case Struct => "struct"
    case Union => "union"
    case Enum => "enum"
  }

  /** What a word means at the start of a statement. */
  datatype Meaning = ImportWord | ModuleWord | DeclarationWord(kind: DeclarationKind) | NoKeyword

  function MeaningOf(word: string): (m: Meaning)
    ensures m.ImportWord? <==> word == IMPORT
    ensures m.ModuleWord? <==> word == MODULE
    ensures m.DeclarationWord? ==> Keyword(m.kind) == word
  {
    if word == IMPORT then ImportWord
    else if word == MODULE then ModuleWord
    else if word == "interface" then DeclarationWord(Interface)
    else if word == "struct" then DeclarationWord(Struct)
    else if word == "union" then DeclarationWord(Union)
    else if word == "enum" then DeclarationWord(Enum)
    else NoKeyword
  }

  lemma KeywordMeaning(kind: DeclarationKind)
    ensures MeaningOf(Keyword(kind)) == DeclarationWord(kind)
  {
  }

  // ----- files as elements -----

  /** What a file consists of at brace depth zero; a body is everything between matching braces. */
  datatype Element =
    | Import(path: string)
    | ModuleName(parts: seq<string>)
    | Declaration(kind: DeclarationKind, name: string)
    | Body(inner: seq<Kind>)
    | Other(token: Kind)

  function Dotted(parts: seq<string>): seq<Kind> {
    if parts == [] then []
    else [Ident(parts[0]), if |parts| == 1 then Punct(';') else Punct('.')] + Dotted(parts[1..])
  }

  function Spelled(e: Element): (ks: seq<Kind>)
    ensures ks != []
  {
    match e
    case Import(path) => [Ident(IMPORT), Literal(path), Punct(';')]
    case ModuleName(parts) => [Ident(MODULE)] + Dotted(parts)
    case Declaration(kind, name) => [Ident(Keyword(kind)), Ident(name)]
    case Body(inner) => [OPEN] + inner + [CLOSE]
    case Other(token) => [token]
  }

  function SpelledAll(es: seq<Element>): seq<Kind> {
    if es == [] then [] else Spelled(es[0]) + SpelledAll(es[1..])
  }

  /** Opening minus closing braces. */
  function Depth(ks: seq<Kind>): int {
    if ks == [] then 0
    else (if ks[0] == OPEN then 1 else if ks[0] == CLOSE then -1 else 0) + Depth(ks[1..])
  }

  ghost predicate Balanced(ks: seq<Kind>) {
    Depth(ks) == 0 && forall i :: 0 <= i <= |ks| ==> Depth(ks[..i]) >= 0
  }

  predicate IsPlain(token: Kind) {
    token != OPEN && token != CLOSE && (token.Ident? ==> MeaningOf(token.name).NoKeyword?)
  }

  ghost predicate GoodElement(e: Element) {
    match e
    case ModuleName(parts) => parts != []
    case Body(inner) => Balanced(inner)
    case Other(token) => IsPlain(token)
    case _ => true
  }

  ghost predicate AllGood(es: seq<Element>) {
    forall i :: 0 <= i < |es| ==> GoodElement(es[i])
  }

  // ----- reading elements -----

  /** The position of the brace that closes the given number of open ones. */
  function MatchingClose(ks: seq<Kind>, depth: nat): (n: Option<nat>)
    requires depth >= 1
    ensures n.Some? ==> n.value < |ks| && ks[n.value] == CLOSE
  {
    if ks == [] then None
    else if ks[0] == CLOSE && depth == 1 then Some(0)
    else
      match MatchingClose(ks[1..], if ks[0] == CLOSE then depth - 1 else if ks[0] == OPEN then depth + 1 else depth)
      case Some(n) => Some(n + 1)
      case None => None
  }

  function ReadDotted(ks: seq<Kind>): (r: Option<(seq<string>, nat)>)
    ensures r.Some? ==> r.value.1 <= |ks|
  {
    if |ks| < 2 || !ks[0].Ident? then None
    else if ks[1] == Punct(';') then Some(([ks[0].name], 2))
    else if ks[1] != Punct('.') then None
    else
      match ReadDotted(ks[2..])
      case Some((parts, n)) => Some(([ks[0].name] + parts, n + 2))
      case None => None
  }

  function ReadStatement(ks: seq<Kind>): (r: Option<(Element, nat)>)
    requires ks != [] && ks[0].Ident?
    ensures r.Some? ==> 1 <= r.value.1 <= |ks|
  {
    match MeaningOf(ks[0].name)
    case ImportWord =>
      if |ks| >= 3 && ks[1].Literal? && ks[2] == Punct(';') then Some((Import(ks[1].value), 3)) else None
    case ModuleWord =>
      (match ReadDotted(ks[1..])
       case Some((parts, n)) => Some((ModuleName(parts), n + 1))
       case None => None)
    case DeclarationWord(kind) =>
      if |ks| >= 2 && ks[1].Ident? then Some((Declaration(kind, ks[1].name), 2)) else None
    case NoKeyword => Some((Other(ks[0]), 1))
  }

  function ReadElement(ks: seq<Kind>): (r: Option<(Element, nat)>)
    requires ks != []
    ensures r.Some? ==> 1 <= r.value.1 <= |ks|
  {
    if ks[0] == OPEN then
      match MatchingClose(ks[1..], 1)
      case Some(n) => Some((Body(ks[1..][..n]), n + 2))
      case None => None
    else if ks[0] == CLOSE then None
    else if ks[0].Ident? then ReadStatement(ks)
    else Some((Other(ks[0]), 1))
  }

  function Elements(ks: seq<Kind>): Option<seq<Element>> {
    if ks == [] then Some([])
    else
      match ReadElement(ks)
      case None => None
      case Some((e, n)) => Then([e], Elements(ks[n..]))
  }

  function Then(done: seq<Element>, r: Option<seq<Element>>): Option<seq<Element>> {
    match r
    case Some(es) => Some(done + es)
    case None => None
  }

  // ----- elements are unique -----

  lemma {:induction false} DepthAppend(a: seq<Kind>, b: seq<Kind>)
    ensures Depth(a + b) == Depth(a) + Depth(b)
  {
    if a == [] {
      assert a + b == b;
    } else {
      assert (a + b)[1..] == a[1..] + b;
      DepthAppend(a[1..], b);
    }
  }

  /** Between the braces of a body every prefix stays inside. */
  ghost predicate StaysInside(ks: seq<Kind>, depth: int) {
    Depth(ks) + depth == 1 && forall i :: 0 <= i <= |ks| ==> Depth(ks[..i]) + depth >= 1
  }

  lemma InsideStep(ks: seq<Kind>, depth: nat)
    requires ks != [] && depth >= 1
    ensures var step := if ks[0] == OPEN then 1 else if ks[0] == CLOSE then -1 else 0;
            StaysInside(ks, depth) <==> StaysInside(ks[1..], depth + step)
  {
    var step := if ks[0] == OPEN then 1 else if ks[0] == CLOSE then -1 else 0;
    forall i | 1 <= i <= |ks| ensures Depth(ks[..i]) == step + Depth(ks[1..][..i - 1]) {
      assert ks[..i][1..] == ks[1..][..i - 1];
    }
    if StaysInside(ks[1..], depth + step) {
      forall i | 0 <= i <= |ks| ensures Depth(ks[..i]) + depth >= 1 {
        if i > 0 {
          assert Depth(ks[1..][..i - 1]) + (depth + step) >= 1;
        }
      }
    }
    if StaysInside(ks, depth) {
      forall j | 0 <= j <= |ks[1..]| ensures Depth(ks[1..][..j]) + (depth + step) >= 1 {
        assert Depth(ks[..j + 1]) + depth >= 1;
      }
    }
  }

  function StepDepth(k: Kind, depth: nat): int {
    if k == CLOSE then depth - 1 else if k == OPEN then depth + 1 else depth
  }

  lemma {:induction false} MatchingCloseExact(inner: seq<Kind>, depth: nat, rest: seq<Kind>)
    requires depth >= 1 && StaysInside(inner, depth)
    ensures MatchingClose(inner + [CLOSE] + rest, depth) == Some(|inner|)
    decreases |inner|
  {
    var ks := inner + [CLOSE] + rest;
    if inner == [] {
      assert ks[0] == CLOSE;
    } else {
      InsideStep(inner, depth);
      var next := StepDepth(inner[0], depth);
      assert Depth(inner[1..][..0]) + next >= 1;
      assert ks[0] == inner[0] && ks[1..] == inner[1..] + [CLOSE] + rest;
      MatchingCloseExact(inner[1..], next, rest);
    }
  }

  lemma {:induction false} MatchingCloseInside(ks: seq<Kind>, depth: nat)
    requires depth >= 1 && MatchingClose(ks, depth).Some?
    ensures StaysInside(ks[..MatchingClose(ks, depth).value], depth)
    decreases |ks|
  {
    var n := MatchingClose(ks, depth).value;
    if ks[0] == CLOSE && depth == 1 {
      assert ks[..0] == [];
    } else {
      MatchingCloseInside(ks[1..], StepDepth(ks[0], depth));
      assert ks[..n][1..] == ks[1..][..n - 1] && ks[..n][0] == ks[0];
      InsideStep(ks[..n], depth);
    }
  }

  lemma BalancedInside(inner: seq<Kind>)
    ensures Balanced(inner) <==> StaysInside(inner, 1)
  {
  }

  lemma {:induction false} ReadDottedLast(name: string, rest: seq<Kind>)
    ensures ReadDotted([Ident(name), Punct(';')] + rest) == Some(([name], 2))
  {
  }

  lemma {:induction false} ReadDottedNext(name: string, others: seq<Kind>)
    requires ReadDotted(others).Some?
    ensures var (parts, n) := ReadDotted(others).value;
            ReadDotted([Ident(name), Punct('.')] + others) == Some(([name] + parts, n + 2))
  {
    assert ([Ident(name), Punct('.')] + others)[2..] == others;
  }

  lemma {:induction false} ReadDottedExact(parts: seq<string>, rest: seq<Kind>)
    requires parts != []
    ensures ReadDotted(Dotted(parts) + rest) == Some((parts, |Dotted(parts)|))
  {
    if |parts| == 1 {
      assert Dotted(parts[1..]) == [] && parts == [parts[0]];
      ReadDottedLast(parts[0], rest);
      assert Dotted(parts) == [Ident(parts[0]), Punct(';')];
    } else {
      var others := Dotted(parts[1..]) + rest;
      ReadDottedExact(parts[1..], rest);
      assert Dotted(parts) + rest == [Ident(parts[0]), Punct('.')] + others;
      hide ReadDotted;
      ReadDottedNext(parts[0], others);
      assert parts == [parts[0]] + parts[1..];
    }
  }

  lemma {:induction false} ReadDottedSpelled(ks: seq<Kind>)
    requires ReadDotted(ks).Some?
    ensures var (parts, n) := ReadDotted(ks).value; parts != [] && Dotted(parts) == ks[..n]
    decreases |ks|
  {
    var (parts, n) := ReadDotted(ks).value;
    if ks[1] == Punct(';') {
      assert Dotted([ks[0].name]) == [Ident(ks[0].name), Punct(';')] + Dotted([ks[0].name][1..]);
      assert ks[..2] == [ks[0], ks[1]];
    } else {
      ReadDottedSpelled(ks[2..]);
      assert parts[1..] == ReadDotted(ks[2..]).value.0;
      assert ks[..n] == [ks[0], ks[1]] + ks[2..][..n - 2];
    }
  }

  lemma ReadImportExact(path: string, rest: seq<Kind>)
    ensures ReadStatement(Spelled(Import(path)) + rest) == Some((Import(path), 3))
  {
    var ks := Spelled(Import(path)) + rest;
    assert ks[0] == Ident(IMPORT) && ks[1] == Literal(path) && ks[2] == Punct(';');
  }

  lemma ReadModuleStep(ks: seq<Kind>, parts: seq<string>, n: nat)
    requires ks != [] && ks[0] == Ident(MODULE) && ReadDotted(ks[1..]) == Some((parts, n))
    ensures ReadStatement(ks) == Some((ModuleName(parts), n + 1))
  {
  }

  lemma ReadModuleExact(parts: seq<string>, rest: seq<Kind>)
    requires parts != []
    ensures ReadStatement(Spelled(ModuleName(parts)) + rest) == Some((ModuleName(parts), |Dotted(parts)| + 1))
  {
    var ks, tail := [Ident(MODULE)] + Dotted(parts) + rest, Dotted(parts) + rest;
    assert ks[1..] == tail;
    ReadDottedExact(parts, rest);
    ReadModuleStep(ks, parts, |Dotted(parts)|);
  }

  lemma ReadDeclarationExact(kind: DeclarationKind, name: string, rest: seq<Kind>)
    ensures ReadStatement(Spelled(Declaration(kind, name)) + rest) == Some((Declaration(kind, name), 2))
  {
    var ks := Spelled(Declaration(kind, name)) + rest;
    assert ks[0] == Ident(Keyword(kind)) && ks[1] == Ident(name);
    KeywordMeaning(kind);
  }

  lemma ReadStatementExact(e: Element, rest: seq<Kind>)
    requires GoodElement(e) && Spelled(e)[0].Ident?
    ensures ReadStatement(Spelled(e) + rest) == Some((e, |Spelled(e)|))
  {
    match e {
      case Import(path) => ReadImportExact(path, rest);
      case ModuleName(parts) => ReadModuleExact(parts, rest);
      case Declaration(kind, name) => ReadDeclarationExact(kind, name, rest);
      case Other(token) => assert (Spelled(e) + rest)[0] == token;
    }
  }

  lemma ReadBodyExact(inner: seq<Kind>, rest: seq<Kind>)
    requires Balanced(inner)
    ensures ReadElement(Spelled(Body(inner)) + rest) == Some((Body(inner), |inner| + 2))
  {
    var ks := Spelled(Body(inner)) + rest;
    assert ks[0] == OPEN && ks[1..] == inner + [CLOSE] + rest;
    BalancedInside(inner);
    MatchingCloseExact(inner, 1, rest);
    assert ks[1..][..|inner|] == inner;
  }

  lemma ReadElementExact(e: Element, rest: seq<Kind>)
    requires GoodElement(e)
    ensures ReadElement(Spelled(e) + rest) == Some((e, |Spelled(e)|))
  {
    if e.Body? {
      ReadBodyExact(e.inner, rest);
    } else if Spelled(e)[0].Ident? {
      ReadStatementExact(e, rest);
      assert (Spelled(e) + rest)[0] == Spelled(e)[0];
    } else {
      assert (Spelled(e) + rest)[0] == Spelled(e)[0];
    }
  }

  lemma ReadStatementGood(ks: seq<Kind>)
    requires ks != [] && ks[0].Ident? && ReadStatement(ks).Some?
    ensures var (e, n) := ReadStatement(ks).value; GoodElement(e) && Spelled(e) == ks[..n]
  {
    var (e, n) := ReadStatement(ks).value;
    match e {
      case Import(_) => assert ks[..3] == [ks[0], ks[1], ks[2]];
      case ModuleName(_) =>
        ReadDottedSpelled(ks[1..]);
        assert ks[..n] == [ks[0]] + ks[1..][..n - 1];
      case Declaration(_, _) => assert ks[..2] == [ks[0], ks[1]];
      case Other(_) => assert ks[..1] == [ks[0]];
    }
  }

  lemma ReadElementGood(ks: seq<Kind>)
    requires ks != [] && ReadElement(ks).Some?
    ensures var (e, n) := ReadElement(ks).value; GoodElement(e) && Spelled(e) == ks[..n]
  {
    var (e, n) := ReadElement(ks).value;
    if ks[0] == OPEN {
      MatchingCloseInside(ks[1..], 1);
      BalancedInside(e.inner);
      assert ks[..n] == [ks[0]] + ks[1..][..n - 2] + [ks[n - 1]];
    } else if ks[0].Ident? {
      ReadStatementGood(ks);
    } else {
      assert ks[..1] == [ks[0]];
    }
  }

  lemma ElementsFirst(ks: seq<Kind>, e: Element, n: nat, rest: seq<Element>)
    requires ks != [] && ReadElement(ks) == Some((e, n)) && Elements(ks[n..]) == Some(rest)
    ensures Elements(ks) == Some([e] + rest)
  {
  }

  lemma SpelledFirst(e: Element, rest: seq<Element>)
    ensures SpelledAll([e] + rest) == Spelled(e) + SpelledAll(rest)
  {
    assert ([e] + rest)[1..] == rest;
  }

  lemma {:induction false} ElementsGood(ks: seq<Kind>, es: seq<Element>)
    requires Elements(ks) == Some(es)
    ensures SpelledAll(es) == ks && AllGood(es)
    decreases |ks|
  {
    if ks != [] {
      ReadElementGood(ks);
      var (e, n) := ReadElement(ks).value;
      var rest := Elements(ks[n..]).value;
      ElementsGood(ks[n..], rest);
      GoodFirst(ks, e, n, rest);
      ElementsFirst(ks, e, n, rest);
    }
  }

  lemma GoodFirst(ks: seq<Kind>, e: Element, n: nat, rest: seq<Element>)
    requires n <= |ks| && Spelled(e) == ks[..n] && GoodElement(e) && SpelledAll(rest) == ks[n..] && AllGood(rest)
    ensures SpelledAll([e] + rest) == ks && AllGood([e] + rest)
  {
    SpelledFirst(e, rest);
    assert ks == ks[..n] + ks[n..];
  }

  lemma {:induction false} ElementsSpelled(es: seq<Element>)
    requires AllGood(es)
    ensures Elements(SpelledAll(es)) == Some(es)
  {
    if es != [] {
      var rest := SpelledAll(es[1..]);
      ReadElementExact(es[0], rest);
      assert (Spelled(es[0]) + rest)[|Spelled(es[0])|..] == rest;
      assert AllGood(es[1..]);
      ElementsSpelled(es[1..]);
      ElementsFirst(Spelled(es[0]) + rest, es[0], |Spelled(es[0])|, es[1..]);
      assert es == [es[0]] + es[1..];
    }
  }

  /** A token list is spelled by at most one list of good elements, and that is what is read. */
  lemma ElementsExact(ks: seq<Kind>, es: seq<Element>)
    ensures Elements(ks) == Some(es) <==> SpelledAll(es) == ks && AllGood(es)
  {
    if Elements(ks).Some? {
      ElementsGood(ks, Elements(ks).value);
    }
    if AllGood(es) {
      ElementsSpelled(es);
    }
  }

  predicate NoBraces(ks: seq<Kind>) {
    forall i :: 0 <= i < |ks| ==> ks[i] != OPEN && ks[i] != CLOSE
  }

  lemma SpelledBalanced(e: Element)
    requires GoodElement(e)
    ensures Balanced(Spelled(e))
  {
    if e.Body? {
      BodyBalanced(e.inner);
    } else {
      if e.ModuleName? {
        DottedNoBraces(e.parts);
      }
      NoBracesBalanced(Spelled(e));
    }
  }

  lemma {:induction false} DottedNoBraces(parts: seq<string>)
    ensures NoBraces(Dotted(parts))
  {
    if parts != [] {
      DottedNoBraces(parts[1..]);
    }
  }

  lemma NoBracesBalanced(ks: seq<Kind>)
    requires NoBraces(ks)
    ensures Balanced(ks)
  {
    forall i | 0 <= i <= |ks| ensures Depth(ks[..i]) == 0 {
      NoBracesDepth(ks[..i]);
    }
    assert ks[..|ks|] == ks;
  }

  lemma {:induction false} NoBracesDepth(ks: seq<Kind>)
    requires NoBraces(ks)
    ensures Depth(ks) == 0
  {
    if ks != [] {
      NoBracesDepth(ks[1..]);
    }
  }

  lemma DepthOne(k: Kind)
    ensures Depth([k]) == if k == OPEN then 1 else if k == CLOSE then -1 else 0
  {
    assert [k][1..] == [];
  }

  lemma BodyBalanced(inner: seq<Kind>)
    requires Balanced(inner)
    ensures Balanced([OPEN] + inner + [CLOSE])
  {
    var ks := [OPEN] + inner + [CLOSE];
    DepthOne(OPEN);
    DepthOne(CLOSE);
    DepthAppend([OPEN], inner);
    DepthAppend([OPEN] + inner, [CLOSE]);
    forall i | 0 <= i <= |ks| ensures Depth(ks[..i]) >= 0 {
      if i == |ks| {
        assert ks[..i] == ks;
      } else if i >= 1 {
        assert ks[..i] == [OPEN] + inner[..i - 1];
        DepthAppend([OPEN], inner[..i - 1]);
      }
    }
  }

  lemma BalancedAppend(a: seq<Kind>, b: seq<Kind>)
    requires Balanced(a) && Balanced(b)
    ensures Balanced(a + b)
  {
    DepthAppend(a, b);
    forall i | 0 <= i <= |a + b| ensures Depth((a + b)[..i]) >= 0 {
      if i <= |a| {
        assert (a + b)[..i] == a[..i];
      } else {
        assert (a + b)[..i] == a + b[..i - |a|];
        DepthAppend(a, b[..i - |a|]);
      }
    }
  }

  /** The braces of a file of elements are balanced, and every element starts at depth zero. */
  lemma {:induction false} ElementsBalanced(es: seq<Element>)
    requires AllGood(es)
    ensures Balanced(SpelledAll(es))
  {
    if es != [] {
      SpelledBalanced(es[0]);
      assert AllGood(es[1..]);
      ElementsBalanced(es[1..]);
      BalancedAppend(Spelled(es[0]), SpelledAll(es[1..]));
    }
  }

  lemma {:induction false} SpelledAppend(a: seq<Element>, b: seq<Element>)
    ensures SpelledAll(a + b) == SpelledAll(a) + SpelledAll(b)
  {
    if a == [] {
      assert a + b == b;
    } else {
      assert (a + b)[1..] == a[1..] + b;
      SpelledAppend(a[1..], b);
    }
  }

  lemma {:induction false} SpelledAt(es: seq<Element>, i: nat)
    requires i < |es|
    ensures |SpelledAll(es[..i])| < |SpelledAll(es)|
    ensures SpelledAll(es)[..|SpelledAll(es[..i])|] == SpelledAll(es[..i])
    ensures SpelledAll(es)[|SpelledAll(es[..i])|] == Spelled(es[i])[0]
  {
    SpelledAppend(es[..i], es[i..]);
    assert es == es[..i] + es[i..] && es[i..][0] == es[i];
    assert SpelledAll(es[i..])[0] == Spelled(es[i])[0];
  }

  /** What is read starts at brace depth zero, and the file's braces are balanced. */
  lemma {:induction false} ElementsAtDepthZero(ks: seq<Kind>, es: seq<Element>, i: nat)
    requires Elements(ks) == Some(es) && i < |es|
    ensures Balanced(ks)
    ensures var start := |SpelledAll(es[..i])|;
            start < |ks| && Depth(ks[..start]) == 0 && ks[start] == Spelled(es[i])[0]
  {
    ElementsGood(ks, es);
    ElementsBalanced(es);
    ElementsBalanced(es[..i]);
    SpelledAt(es, i);
  }
}
