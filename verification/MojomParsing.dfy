/** The imports, the module and the declarations a Mojom file has outside of all braces. */
module MojomParsing {
  import opened Wrappers
  import opened Ordering
  import opened Texts
  import opened MojomLexing
  import opened MojomElements

  datatype ParsedImport = ParsedImport(path: string, line: nat)

  datatype ParsedDeclaration = ParsedDeclaration(kind: DeclarationKind, name: string, line: nat)

  datatype ParsedMojom = ParsedMojom(
    name: Option<string>, imports: seq<ParsedImport>, declarations: seq<ParsedDeclaration>)

  datatype ParseReason =
    | UnmatchedBrace | UnclosedBody | BadImport | BadModule | MultipleModules | BadDeclaration

  datatype ParseError = ParseError(line: nat, reason: ParseReason)

  function KindsOf(tokens: seq<Token>): (ks: seq<Kind>)
    ensures |ks| == |tokens| && forall i :: 0 <= i < |ks| ==> ks[i] == tokens[i].kind
  {
    seq(|tokens|, i requires 0 <= i < |tokens| => tokens[i].kind)
  }

  // ----- what elements record -----

  lemma {:induction false} SpelledSnoc(es: seq<Element>, e: Element)
    ensures SpelledAll(es + [e]) == SpelledAll(es) + Spelled(e)
  {
    if es == [] {
      assert [e][1..] == [] && [] + [e] == [e];
    } else {
      assert (es + [e])[1..] == es[1..] + [e];
      SpelledSnoc(es[1..], e);
    }
  }

  lemma SpelledFront(es: seq<Element>)
    requires es != []
    ensures |SpelledAll(es[..|es| - 1])| < |SpelledAll(es)|
  {
    SpelledSnoc(es[..|es| - 1], es[|es| - 1]);
    assert es == es[..|es| - 1] + [es[|es| - 1]];
  }

  /** The imports, each on the line of its first token. */
  function ImportsOf(es: seq<Element>, tokens: seq<Token>): seq<ParsedImport>
    requires |SpelledAll(es)| <= |tokens|
  {
    if es == [] then []
    else
      SpelledFront(es);
      var front, last := es[..|es| - 1], es[|es| - 1];
      ImportsOf(front, tokens) + ImportOf(last, tokens[|SpelledAll(front)|].line)
  }

  function ImportOf(e: Element, line: nat): seq<ParsedImport> {
    if e.Import? then [ParsedImport(e.path, line)] else []
  }

  function DeclarationsOf(es: seq<Element>, tokens: seq<Token>): seq<ParsedDeclaration>
    requires |SpelledAll(es)| <= |tokens|
  {
    if es == [] then []
    else
      SpelledFront(es);
      var front, last := es[..|es| - 1], es[|es| - 1];
      DeclarationsOf(front, tokens) + DeclarationOf(last, tokens[|SpelledAll(front)|].line)
  }

  function DeclarationOf(e: Element, line: nat): seq<ParsedDeclaration> {
    if e.Declaration? then [ParsedDeclaration(e.kind, e.name, line)] else []
  }

  function ModulesOf(es: seq<Element>): seq<string> {
    if es == [] then [] else ModulesOf(es[..|es| - 1]) + ModuleOf(es[|es| - 1])
  }

  function ModuleOf(e: Element): seq<string> {
    if e.ModuleName? then [JoinedBy(e.parts, '.')] else []
  }

  lemma {:induction false} ModulesAppend(a: seq<Element>, b: seq<Element>)
    ensures ModulesOf(a + b) == ModulesOf(a) + ModulesOf(b)
    decreases |b|
  {
    if b == [] {
      assert a + b == a;
    } else {
      assert (a + b)[..|a + b| - 1] == a + b[..|b| - 1];
      ModulesAppend(a, b[..|b| - 1]);
    }
  }

  lemma ImportsSnoc(es: seq<Element>, e: Element, tokens: seq<Token>)
    requires |SpelledAll(es)| + |Spelled(e)| <= |tokens|
    ensures |SpelledAll(es + [e])| == |SpelledAll(es)| + |Spelled(e)|
    ensures ImportsOf(es + [e], tokens) == ImportsOf(es, tokens) + ImportOf(e, tokens[|SpelledAll(es)|].line)
    ensures DeclarationsOf(es + [e], tokens) ==
            DeclarationsOf(es, tokens) + DeclarationOf(e, tokens[|SpelledAll(es)|].line)
  {
    SpelledSnoc(es, e);
    assert (es + [e])[..|es + [e]| - 1] == es;
  }

  lemma ModulesSnoc(es: seq<Element>, e: Element)
    ensures ModulesOf(es + [e]) == ModulesOf(es) + ModuleOf(e)
  {
    assert (es + [e])[..|es + [e]| - 1] == es;
  }

  // ----- orders -----

  predicate ImportLeq(a: ParsedImport, b: ParsedImport) {
    if a.path == b.path then a.line <= b.line else StringLeq(a.path, b.path)
  }

  predicate DeclarationLeq(a: ParsedDeclaration, b: ParsedDeclaration) {
    if a.name != b.name then StringLeq(a.name, b.name)
    else if a.kind != b.kind then a.kind.Rank() <= b.kind.Rank()
    else a.line <= b.line
  }

  lemma ImportOrder()
    ensures TotalPreorder(ImportLeq)
  {
    forall x: ParsedImport, y: ParsedImport ensures ImportLeq(x, y) || ImportLeq(y, x) {
      StringLeqTotal(x.path, y.path);
    }
    forall x: ParsedImport, y: ParsedImport, z: ParsedImport | ImportLeq(x, y) && ImportLeq(y, z)
      ensures ImportLeq(x, z)
    {
      NamesOrdered(x.path, y.path, z.path);
    }
  }

  lemma DeclarationOrder()
    ensures TotalPreorder(DeclarationLeq)
  {
    forall x: ParsedDeclaration, y: ParsedDeclaration ensures DeclarationLeq(x, y) || DeclarationLeq(y, x) {
      StringLeqTotal(x.name, y.name);
    }
    forall x: ParsedDeclaration, y: ParsedDeclaration, z: ParsedDeclaration |
      DeclarationLeq(x, y) && DeclarationLeq(y, z) ensures DeclarationLeq(x, z) {
      NamesOrdered(x.name, y.name, z.name);
    }
  }

  lemma NamesOrdered(x: string, y: string, z: string)
    ensures StringLeq(x, y) && StringLeq(y, z) ==> StringLeq(x, z)
    ensures StringLeq(x, y) && StringLeq(y, x) ==> x == y
    ensures StringLeq(y, z) && StringLeq(z, y) ==> y == z
  {
    if StringLeq(x, y) && StringLeq(y, z) {
      StringLeqTransitive(x, y, z);
    }
    if StringLeq(x, y) && StringLeq(y, x) {
      StringLeqAntisymmetric(x, y);
    }
    if StringLeq(y, z) && StringLeq(z, y) {
      StringLeqAntisymmetric(y, z);
    }
  }

  // ----- what goes wrong -----

  /** Why no element starts with this token, when none does. */
  function ReasonFor(token: Kind): ParseReason {
    match token
    case Punct(c) => if c == '{' then UnclosedBody else UnmatchedBrace
    case Ident(name) =>
      (match MeaningOf(name)
       case ImportWord => BadImport
       case ModuleWord => BadModule
       case _ => BadDeclaration)
    case Literal(_) => BadDeclaration
  }

  /** What is wrong with the first element: it is a second module name, or it cannot be read. */
  function FaultOf(ks: seq<Kind>, named: bool): Option<ParseReason>
    requires ks != []
  {
    if named && ks[0] == Ident(MODULE) then Some(MultipleModules)
    else if ReadElement(ks).None? then Some(ReasonFor(ks[0]))
    else None
  }

  datatype Fault = Fault(at: nat, reason: ParseReason)

  /** The first element that is wrong, and why; `start` counts the tokens before. */
  function FirstFault(ks: seq<Kind>, start: nat, named: bool): (r: Option<Fault>)
    ensures r.Some? ==> start <= r.value.at < start + |ks|
  {
    if ks == [] then None
    else if FaultOf(ks, named).Some? then Some(Fault(start, FaultOf(ks, named).value))
    else if ReadElement(ks).None? then None
    else
      var (e, n) := ReadElement(ks).value;
      FirstFault(ks[n..], start + n, named || e.ModuleName?)
  }

  lemma FaultRead(rest: seq<Kind>, index: nat, named: bool, e: Element, n: nat)
    requires rest != [] && FaultOf(rest, named) == None && ReadElement(rest) == Some((e, n))
    ensures FirstFault(rest, index, named) == FirstFault(rest[n..], index + n, named || e.ModuleName?)
  {
  }

  lemma FaultNow(rest: seq<Kind>, index: nat, named: bool)
    requires rest != [] && FaultOf(rest, named).Some?
    ensures FirstFault(rest, index, named) == Some(Fault(index, FaultOf(rest, named).value))
  {
  }

  /** The elements can be read and have at most so many module names. */
  predicate Readable(ks: seq<Kind>, modules: nat) {
    Elements(ks).Some? && |ModulesOf(Elements(ks).value)| <= modules
  }

  /** Nothing is wrong exactly with elements of at most one module name. */
  lemma {:induction false} FaultlessMeans(ks: seq<Kind>, start: nat, named: bool)
    ensures FirstFault(ks, start, named).None? <==> Readable(ks, if named then 0 else 1)
    decreases |ks|
  {
    if ks == [] || ReadElement(ks).None? {
      assert ks == [] ==> FirstFault(ks, start, named).None? && Readable(ks, 0);
    } else {
      var (e, n) := ReadElement(ks).value;
      FaultlessMeans(ks[n..], start + n, named || e.ModuleName?);
      FaultlessStep(ks, start, named, e, n);
    }
  }

  lemma {:induction false} FaultlessStep(ks: seq<Kind>, start: nat, named: bool, e: Element, n: nat)
    requires ks != [] && ReadElement(ks) == Some((e, n))
    requires FirstFault(ks[n..], start + n, named || e.ModuleName?).None? <==>
             Readable(ks[n..], if named || e.ModuleName? then 0 else 1)
    ensures FirstFault(ks, start, named).None? <==> Readable(ks, if named then 0 else 1)
  {
    hide ReadElement, ModulesOf, Elements, FirstFault;
    ModuleFirst(ks, e, n);
    ModulesCounted(ks, e, n);
    if FaultOf(ks, named).None? {
      FaultRead(ks, start, named, e, n);
    } else {
      FaultNow(ks, start, named);
    }
  }

  lemma {:induction false} ModulesCounted(ks: seq<Kind>, e: Element, n: nat)
    requires ks != [] && ReadElement(ks) == Some((e, n))
    ensures Elements(ks).Some? <==> Elements(ks[n..]).Some?
    ensures Elements(ks).Some? ==>
              |ModulesOf(Elements(ks).value)| ==
              (if e.ModuleName? then 1 else 0) + |ModulesOf(Elements(ks[n..]).value)|
  {
    ElementsRead(ks, e, n);
    hide ReadElement, ModulesOf, Elements;
    if Elements(ks[n..]).Some? {
      ModulesAppend([e], Elements(ks[n..]).value);
      ModulesOfOne(e);
    }
  }

  lemma ModulesOfOne(e: Element)
    ensures ModulesOf([e]) == ModuleOf(e)
  {
    assert [e][..0] == [];
  }

  lemma ModuleFirst(ks: seq<Kind>, e: Element, n: nat)
    requires ks != [] && ReadElement(ks) == Some((e, n))
    ensures ks[0] == Ident(MODULE) <==> e.ModuleName?
  {
  }

  // ----- the parser's position -----

  /** How the file's elements follow from those read: at depth zero, or inside the body opened at `start`. */
  ghost predicate AtTop(all: Option<seq<Element>>, ks: seq<Kind>, index: nat, done: seq<Element>)
    requires index <= |ks|
  {
    all == Then(done, Elements(ks[index..]))
  }

  ghost predicate InBody(
    all: Option<seq<Element>>, ks: seq<Kind>, index: nat, depth: nat, done: seq<Element>, start: nat)
    requires start < index <= |ks| && depth >= 1
  {
    all == Closed(ks, index, MatchingClose(ks[index..], depth), done, start)
  }

  /** The elements when the open body is closed behind this many tokens, if it is closed. */
  ghost function Closed(ks: seq<Kind>, index: nat, n: Option<nat>, done: seq<Element>, start: nat): Option<seq<Element>>
    requires start < index <= |ks| && (n.Some? ==> index + n.value < |ks|)
  {
    match n
    case Some(n) => Then(done + [Body(ks[start + 1..index + n])], Elements(ks[index + n + 1..]))
    case None => None
  }

  lemma ThenTwice(a: seq<Element>, b: seq<Element>, r: Option<seq<Element>>)
    ensures Then(a, Then(b, r)) == Then(a + b, r)
  {
    if r.Some? {
      assert a + (b + r.value) == a + b + r.value;
    }
  }

  lemma ElementsRead(rest: seq<Kind>, e: Element, n: nat)
    requires rest != [] && ReadElement(rest) == Some((e, n))
    ensures Elements(rest) == Then([e], Elements(rest[n..]))
  {
  }

  lemma ReadStep(all: Option<seq<Element>>, ks: seq<Kind>, index: nat, done: seq<Element>, e: Element, next: nat)
    requires index < next <= |ks| && AtTop(all, ks, index, done) && ReadElement(ks[index..]) == Some((e, next - index))
    ensures AtTop(all, ks, next, done + [e])
  {
    ElementsRead(ks[index..], e, next - index);
    assert ks[index..][next - index..] == ks[next..];
    ThenTwice(done, [e], Elements(ks[next..]));
  }

  lemma ReadFails(all: Option<seq<Element>>, ks: seq<Kind>, index: nat, done: seq<Element>)
    requires index < |ks| && AtTop(all, ks, index, done) && ReadElement(ks[index..]) == None
    ensures all == None
  {
  }

  lemma ReadOpen(ks: seq<Kind>, index: nat, n: Option<nat>)
    requires index < |ks| && ks[index] == OPEN && n == MatchingClose(ks[index + 1..], 1)
    ensures n.Some? ==> ReadElement(ks[index..]) == Some((Body(ks[index + 1..index + 1 + n.value]), n.value + 2))
    ensures n.None? ==> ReadElement(ks[index..]) == None
  {
    var rest := ks[index..];
    assert rest[0] == OPEN && rest[1..] == ks[index + 1..];
    if n.Some? {
      assert ks[index + 1..][..n.value] == ks[index + 1..index + 1 + n.value];
    }
  }

  lemma {:induction false} OpenStep(
    all: Option<seq<Element>>, ks: seq<Kind>, index: nat, done: seq<Element>, next: nat, depth: nat)
    requires index < |ks| && ks[index] == OPEN && AtTop(all, ks, index, done) && next == index + 1 && depth == 1
    ensures InBody(all, ks, next, depth, done, index)
  {
    hide MatchingClose, Elements, ReadElement, AtTop;
    var n := MatchingClose(ks[next..], depth);
    ReadOpen(ks, index, n);
    if n.Some? {
      ReadStep(all, ks, index, done, Body(ks[next..next + n.value]), next + n.value + 1);
    } else {
      ReadFails(all, ks, index, done);
    }
  }

  /** Seen from one token earlier. */
  function Later(n: Option<nat>): Option<nat> {
    match n case Some(n) => Some(n + 1) case None => None
  }

  lemma MatchingCloseStep(rest: seq<Kind>, depth: nat)
    requires rest != [] && depth >= 1 && !(rest[0] == CLOSE && depth == 1)
    ensures MatchingClose(rest, depth) == Later(MatchingClose(rest[1..], StepDepth(rest[0], depth)))
  {
  }

  lemma {:induction false} InsideBodyStep(
    all: Option<seq<Element>>, ks: seq<Kind>, index: nat, depth: nat, done: seq<Element>, start: nat, next: nat,
    depth': nat)
    requires start < index < |ks| && depth > 0 && InBody(all, ks, index, depth, done, start)
    requires !(ks[index] == CLOSE && depth == 1) && next == index + 1 && depth' == StepDepth(ks[index], depth)
    ensures InBody(all, ks, next, depth', done, start)
  {
    hide MatchingClose, Elements, Closed;
    var rest := ks[index..];
    assert rest[0] == ks[index] && rest[1..] == ks[next..];
    MatchingCloseStep(rest, depth);
    ClosedLater(ks, index, MatchingClose(ks[next..], depth'), done, start);
  }

  lemma ClosedLater(ks: seq<Kind>, index: nat, n: Option<nat>, done: seq<Element>, start: nat)
    requires start < index < |ks| && (n.Some? ==> index + 1 + n.value < |ks|)
    ensures Closed(ks, index + 1, n, done, start) == Closed(ks, index, Later(n), done, start)
  {
  }

  lemma MatchingCloseNow(rest: seq<Kind>)
    requires rest != [] && rest[0] == CLOSE
    ensures MatchingClose(rest, 1) == Some(0)
  {
  }

  lemma CloseStep(
    all: Option<seq<Element>>, ks: seq<Kind>, index: nat, depth: nat, done: seq<Element>, start: nat, next: nat)
    requires start < index < |ks| && ks[index] == CLOSE && depth == 1 && InBody(all, ks, index, depth, done, start)
    requires next == index + 1
    ensures AtTop(all, ks, next, done + [Body(ks[start + 1..index])])
  {
    MatchingCloseNow(ks[index..]);
  }

  lemma TopEnd(all: Option<seq<Element>>, ks: seq<Kind>, done: seq<Element>)
    requires AtTop(all, ks, |ks|, done)
    ensures all == Some(done)
  {
    assert ks[|ks|..] == [] && done + [] == done;
  }

  // ----- the parser -----

  /** The dotted name behind the keyword at `index`, and the position behind its semicolon. */
  method ReadModuleName(tokens: seq<Token>, index: nat) returns (r: Option<(seq<string>, nat)>)
    requires index < |tokens|
    ensures r.Some? ==> index + 1 < r.value.1 <= |tokens|
    ensures r.Some? ==> ReadDotted(KindsOf(tokens)[index + 1..]) == Some((r.value.0, r.value.1 - index - 1))
    ensures r.None? ==> ReadDotted(KindsOf(tokens)[index + 1..]) == None
  {
    hide Prefix, ReadDotted;
    ghost var ks := KindsOf(tokens);
    var parts: seq<string> := [];
    var cursor := index + 1;
    ghost var whole := ReadDotted(ks[index + 1..]);
    PrefixNone(whole);
    while true
      invariant index < cursor <= |tokens| && whole == Prefix(parts, cursor - index - 1, ReadDotted(ks[cursor..]))
      decreases |tokens| - cursor
    {
      ghost var rest := ks[cursor..];
      DottedStep(rest);
      if cursor + 1 >= |tokens| || !tokens[cursor].kind.Ident? {
        PrefixEnd(parts, cursor - index - 1, "");
        return None;
      }
      assert rest[0] == ks[cursor] && rest[1] == ks[cursor + 1] && rest[2..] == ks[cursor + 2..];
      var part := tokens[cursor].kind.name;
      PrefixEnd(parts, cursor - index - 1, part);
      if tokens[cursor + 1].kind == Punct(';') {
        return Some((parts + [part], cursor + 2));
      }
      if tokens[cursor + 1].kind != Punct('.') {
        return None;
      }
      PrefixLonger(parts, cursor - index - 1, part, ReadDotted(ks[cursor + 2..]));
      parts := parts + [part];
      cursor := cursor + 2;
    }
  }

  lemma DottedStep(rest: seq<Kind>)
    ensures |rest| < 2 || !rest[0].Ident? || (rest[1] != Punct(';') && rest[1] != Punct('.')) ==>
              ReadDotted(rest) == None
    ensures |rest| >= 2 && rest[0].Ident? && rest[1] == Punct(';') ==> ReadDotted(rest) == Some(([rest[0].name], 2))
    ensures |rest| >= 2 && rest[0].Ident? && rest[1] == Punct('.') ==>
              ReadDotted(rest) == Prefix([rest[0].name], 2, ReadDotted(rest[2..]))
  {
  }

  lemma PrefixEnd(parts: seq<string>, n: nat, part: string)
    ensures Prefix(parts, n, None) == None && Prefix(parts, n, Some(([part], 2))) == Some((parts + [part], n + 2))
  {
  }

  function Prefix(parts: seq<string>, n: nat, r: Option<(seq<string>, nat)>): Option<(seq<string>, nat)> {
    match r
    case Some((more, m)) => Some((parts + more, n + m))
    case None => None
  }

  lemma PrefixNone(r: Option<(seq<string>, nat)>)
    ensures Prefix([], 0, r) == r
  {
    if r.Some? {
      assert [] + r.value.0 == r.value.0;
    }
  }

  lemma PrefixLonger(parts: seq<string>, n: nat, part: string, r: Option<(seq<string>, nat)>)
    ensures Prefix(parts, n, Prefix([part], 2, r)) == Prefix(parts + [part], n + 2, r)
  {
    if r.Some? {
      assert parts + ([part] + r.value.0) == parts + [part] + r.value.0;
    }
  }

  /** The statement or other token at depth zero, and the position behind it. */
  method StatementAt(tokens: seq<Token>, index: nat, named: bool) returns (r: Result<(Element, nat), ParseError>)
    requires index < |tokens| && tokens[index].kind != OPEN && tokens[index].kind != CLOSE
    ensures r.Ok? ==>
              var (e, next) := r.value;
              && index < next <= |tokens| && ReadElement(KindsOf(tokens)[index..]) == Some((e, next - index))
              && !(named && e.ModuleName?) && FaultOf(KindsOf(tokens)[index..], named) == None
    ensures r.Err? ==>
              && r.error.line == tokens[index].line && r.error.reason != UnclosedBody
              && FaultOf(KindsOf(tokens)[index..], named) == Some(r.error.reason)
  {
    ghost var rest := KindsOf(tokens)[index..];
    var token := tokens[index];
    assert rest[0] == token.kind;
    if !token.kind.Ident? {
      return Ok((Other(token.kind), index + 1));
    }
    match MeaningOf(token.kind.name) {
      case ImportWord =>
        if index + 2 >= |tokens| || !tokens[index + 1].kind.Literal? || tokens[index + 2].kind != Punct(';') {
          return Err(ParseError(token.line, BadImport));
        }
        return Ok((Import(tokens[index + 1].kind.value), index + 3));
      case ModuleWord =>
        if named {
          return Err(ParseError(token.line, MultipleModules));
        }
        var name := ReadModuleName(tokens, index);
        assert rest[1..] == KindsOf(tokens)[index + 1..];
        if name.None? {
          return Err(ParseError(token.line, BadModule));
        }
        return Ok((ModuleName(name.value.0), name.value.1));
      case DeclarationWord(kind) =>
        if index + 1 >= |tokens| || !tokens[index + 1].kind.Ident? {
          return Err(ParseError(token.line, BadDeclaration));
        }
        return Ok((Declaration(kind, tokens[index + 1].kind.name), index + 2));
      case NoKeyword =>
        return Ok((Other(token.kind), index + 1));
    }
  }

  /** The records of the elements, in file order. */
  ghost predicate Recorded(
    es: seq<Element>, tokens: seq<Token>, index: nat, name: Option<string>, imports: seq<ParsedImport>,
    declarations: seq<ParsedDeclaration>)
    requires index <= |tokens|
  {
    && |SpelledAll(es)| == index
    && imports == ImportsOf(es, tokens) && declarations == DeclarationsOf(es, tokens)
    && ModulesOf(es) == match name case Some(n) => [n] case None => []
  }

  lemma RecordStep(
    es: seq<Element>, tokens: seq<Token>, index: nat, name: Option<string>, imports: seq<ParsedImport>,
    declarations: seq<ParsedDeclaration>, e: Element, name': Option<string>)
    requires index < |tokens| && Recorded(es, tokens, index, name, imports, declarations)
    requires index + |Spelled(e)| <= |tokens|
    requires e.ModuleName? ==> name.None? && name' == Some(JoinedBy(e.parts, '.'))
    requires !e.ModuleName? ==> name' == name
    ensures Recorded(es + [e], tokens, index + |Spelled(e)|, name', imports + ImportOf(e, tokens[index].line),
                     declarations + DeclarationOf(e, tokens[index].line))
  {
    ImportsSnoc(es, e, tokens);
    ModulesSnoc(es, e);
  }

  /** What a file with these elements is recorded as. */
  ghost predicate Parsed(es: seq<Element>, tokens: seq<Token>, p: ParsedMojom) {
    && |SpelledAll(es)| == |tokens|
    && ModulesOf(es) == (match p.name case Some(n) => [n] case None => [])
    && multiset(p.imports) == multiset(ImportsOf(es, tokens)) && ImportsInOrder(p.imports)
    && multiset(p.declarations) == multiset(DeclarationsOf(es, tokens)) && DeclarationsInOrder(p.declarations)
  }

  /** By path, and those of one path by line. */
  ghost predicate ImportsInOrder(imports: seq<ParsedImport>) {
    forall i, j :: 0 <= i < j < |imports| ==>
      && StringLeq(imports[i].path, imports[j].path)
      && (imports[i].path == imports[j].path ==> imports[i].line <= imports[j].line)
  }

  /** By name, those of one name by kind, and those of one name and kind by line. */
  ghost predicate DeclarationsInOrder(declarations: seq<ParsedDeclaration>) {
    forall i, j :: 0 <= i < j < |declarations| ==>
      var a, b := declarations[i], declarations[j];
      && StringLeq(a.name, b.name) && (a.name == b.name ==> a.kind.Rank() <= b.kind.Rank())
      && (a.name == b.name && a.kind == b.kind ==> a.line <= b.line)
  }

  lemma {:induction false} NoDifference(name: string)
    ensures StringLeq(name, name)
  {
    if name != "" {
      NoDifference(name[1..]);
    }
  }

  lemma OrdersMean(imports: seq<ParsedImport>, declarations: seq<ParsedDeclaration>)
    ensures SortedBy(imports, ImportLeq) ==> ImportsInOrder(imports)
    ensures SortedBy(declarations, DeclarationLeq) ==> DeclarationsInOrder(declarations)
  {
    hide StringLeq;
    forall name: string ensures StringLeq(name, name) {
      NoDifference(name);
    }
    if SortedBy(imports, ImportLeq) {
      forall i, j | 0 <= i < j < |imports|
        ensures StringLeq(imports[i].path, imports[j].path)
        ensures imports[i].path == imports[j].path ==> imports[i].line <= imports[j].line
      {
        assert ImportLeq(imports[i], imports[j]);
      }
    }
    if SortedBy(declarations, DeclarationLeq) {
      forall i, j | 0 <= i < j < |declarations| ensures DeclarationLeq(declarations[i], declarations[j]) {
      }
    }
  }

  /** The variables of the parser. */
  datatype Reading = Reading(
    index: nat, depth: nat, name: Option<string>, imports: seq<ParsedImport>, declarations: seq<ParsedDeclaration>)

  /** Everything known at a position: the elements read so far, and where the open body starts. */
  ghost predicate Position(all: Option<seq<Element>>, tokens: seq<Token>, s: Reading, done: seq<Element>, start: nat) {
    && s.index <= |tokens|
    && (if s.depth == 0 then AtTop(all, KindsOf(tokens), s.index, done)
        else start < s.index && InBody(all, KindsOf(tokens), s.index, s.depth, done, start))
  }

  /** Where the element that is not read yet starts. */
  function Pending(s: Reading, start: nat): nat {
    if s.depth == 0 then s.index else start
  }

  /** The records are those of the elements read. */
  ghost predicate Records(tokens: seq<Token>, s: Reading, done: seq<Element>, start: nat) {
    Pending(s, start) <= |tokens| && Recorded(done, tokens, Pending(s, start), s.name, s.imports, s.declarations)
  }

  lemma PositionOpen(all: Option<seq<Element>>, tokens: seq<Token>, s: Reading, done: seq<Element>, start: nat)
    requires Position(all, tokens, s, done, start) && s.index < |tokens| && tokens[s.index].kind == OPEN
    ensures Position(all, tokens, s.(index := s.index + 1, depth := s.depth + 1), done,
                     if s.depth == 0 then s.index else start)
  {
    var s' := s.(index := s.index + 1, depth := s.depth + 1);
    if s.depth == 0 {
      OpenStep(all, KindsOf(tokens), s.index, done, s'.index, s'.depth);
    } else {
      InsideBodyStep(all, KindsOf(tokens), s.index, s.depth, done, start, s'.index, s'.depth);
    }
  }

  /** The elements read when the innermost brace closes. */
  ghost function AfterClose(tokens: seq<Token>, s: Reading, done: seq<Element>, start: nat): seq<Element>
    requires start < s.index <= |tokens|
  {
    if s.depth == 1 then done + [Body(KindsOf(tokens)[start + 1..s.index])] else done
  }

  lemma PositionClose(all: Option<seq<Element>>, tokens: seq<Token>, s: Reading, done: seq<Element>, start: nat)
    requires Position(all, tokens, s, done, start) && s.index < |tokens| && tokens[s.index].kind == CLOSE && s.depth > 0
    ensures start < s.index
    ensures Position(all, tokens, s.(index := s.index + 1, depth := s.depth - 1), AfterClose(tokens, s, done, start),
                     start)
  {
    var s' := s.(index := s.index + 1, depth := s.depth - 1);
    if s.depth == 1 {
      CloseStep(all, KindsOf(tokens), s.index, s.depth, done, start, s'.index);
    } else {
      InsideBodyStep(all, KindsOf(tokens), s.index, s.depth, done, start, s'.index, s'.depth);
    }
  }

  lemma RecordsClose(tokens: seq<Token>, s: Reading, done: seq<Element>, start: nat)
    requires Records(tokens, s, done, start) && s.depth > 0 && start < s.index < |tokens|
    ensures Records(tokens, s.(index := s.index + 1, depth := s.depth - 1), AfterClose(tokens, s, done, start), start)
  {
    if s.depth == 1 {
      var body := Body(KindsOf(tokens)[start + 1..s.index]);
      assert |Spelled(body)| == s.index + 1 - start;
      RecordStep(done, tokens, start, s.name, s.imports, s.declarations, body, s.name);
      assert s.imports + [] == s.imports && s.declarations + [] == s.declarations;
    }
  }

  lemma PositionInside(all: Option<seq<Element>>, tokens: seq<Token>, s: Reading, done: seq<Element>, start: nat)
    requires Position(all, tokens, s, done, start) && s.index < |tokens| && s.depth > 0
    requires tokens[s.index].kind != OPEN && tokens[s.index].kind != CLOSE
    ensures Position(all, tokens, s.(index := s.index + 1), done, start)
  {
    var s' := s.(index := s.index + 1);
    InsideBodyStep(all, KindsOf(tokens), s.index, s.depth, done, start, s'.index, s'.depth);
  }

  /** The variables behind a statement. */
  function AfterStatement(s: Reading, e: Element, next: nat, line: nat): Reading {
    Reading(next, s.depth, if e.ModuleName? then Some(JoinedBy(e.parts, '.')) else s.name,
            s.imports + ImportOf(e, line), s.declarations + DeclarationOf(e, line))
  }

  lemma PositionStatement(
    all: Option<seq<Element>>, tokens: seq<Token>, s: Reading, done: seq<Element>, start: nat, e: Element, next: nat)
    requires Position(all, tokens, s, done, start) && s.depth == 0 && s.index < next <= |tokens|
    requires ReadElement(KindsOf(tokens)[s.index..]) == Some((e, next - s.index))
    ensures Position(all, tokens, AfterStatement(s, e, next, tokens[s.index].line), done + [e], start)
  {
    ReadStep(all, KindsOf(tokens), s.index, done, e, next);
  }

  lemma RecordsStatement(tokens: seq<Token>, s: Reading, done: seq<Element>, start: nat, e: Element, next: nat)
    requires Records(tokens, s, done, start) && s.depth == 0 && s.index < next <= |tokens|
    requires |Spelled(e)| == next - s.index && !(s.name.Some? && e.ModuleName?)
    ensures Records(tokens, AfterStatement(s, e, next, tokens[s.index].line), done + [e], start)
  {
    RecordStep(done, tokens, s.index, s.name, s.imports, s.declarations, e,
               if e.ModuleName? then Some(JoinedBy(e.parts, '.')) else s.name);
  }

  lemma ReadLength(ks: seq<Kind>)
    requires ks != [] && ReadElement(ks).Some?
    ensures |Spelled(ReadElement(ks).value.0)| == ReadElement(ks).value.1
  {
    ReadElementGood(ks);
  }

  lemma PositionEnd(all: Option<seq<Element>>, tokens: seq<Token>, s: Reading, done: seq<Element>, start: nat)
    requires Position(all, tokens, s, done, start) && Records(tokens, s, done, start) && s.index == |tokens|
    requires s.depth == 0
    ensures all.Some? && Parsed(all.value, tokens, SortedRecords(s))
  {
    TopEnd(all, KindsOf(tokens), done);
    ImportOrder();
    DeclarationOrder();
    SortCorrect(s.imports, ImportLeq);
    SortCorrect(s.declarations, DeclarationLeq);
    OrdersMean(Sort(s.imports, ImportLeq), Sort(s.declarations, DeclarationLeq));
  }

  // ----- the fault ahead -----

  /** The fault behind a body that closes so many tokens on, or that the body never closes. */
  ghost function FaultBehind(ks: seq<Kind>, index: nat, n: Option<nat>, start: nat, named: bool): Option<Fault>
    requires index <= |ks| && (n.Some? ==> index + n.value < |ks|)
  {
    match n
    case Some(n) => FirstFault(ks[index + n + 1..], index + n + 1, named)
    case None => Some(Fault(start, UnclosedBody))
  }

  /** The first fault of the file is the first one still ahead. */
  ghost predicate Ahead(fault: Option<Fault>, ks: seq<Kind>, index: nat, depth: nat, start: nat, named: bool)
    requires index <= |ks|
  {
    if depth == 0 then fault == FirstFault(ks[index..], index, named)
    else fault == FaultBehind(ks, index, MatchingClose(ks[index..], depth), start, named)
  }

  lemma {:induction false} AheadOpen(
    fault: Option<Fault>, ks: seq<Kind>, index: nat, start: nat, named: bool, next: nat, depth: nat)
    requires index < |ks| && ks[index] == OPEN && Ahead(fault, ks, index, 0, start, named)
    requires next == index + 1 && depth == 1
    ensures Ahead(fault, ks, next, depth, index, named)
  {
    hide MatchingClose, FirstFault, ReadElement;
    var rest, n := ks[index..], MatchingClose(ks[next..], depth);
    assert rest[0] == OPEN;
    ReadOpen(ks, index, n);
    if n.Some? {
      FaultRead(rest, index, named, Body(ks[next..next + n.value]), n.value + 2);
      assert rest[n.value + 2..] == ks[next + n.value + 1..];
    } else {
      FaultNow(rest, index, named);
    }
  }

  lemma {:induction false} AheadInside(
    fault: Option<Fault>, ks: seq<Kind>, index: nat, depth: nat, start: nat, named: bool, next: nat, depth': nat)
    requires index < |ks| && depth > 0 && Ahead(fault, ks, index, depth, start, named)
    requires !(ks[index] == CLOSE && depth == 1) && next == index + 1 && depth' == StepDepth(ks[index], depth)
    ensures Ahead(fault, ks, next, depth', start, named)
  {
    hide MatchingClose, FirstFault;
    var rest := ks[index..];
    assert rest[0] == ks[index] && rest[1..] == ks[next..];
    MatchingCloseStep(rest, depth);
  }

  lemma AheadClose(
    fault: Option<Fault>, ks: seq<Kind>, index: nat, depth: nat, start: nat, named: bool, next: nat, depth': nat)
    requires index < |ks| && depth == 1 && ks[index] == CLOSE && Ahead(fault, ks, index, depth, start, named)
    requires next == index + 1 && depth' == 0
    ensures Ahead(fault, ks, next, depth', start, named)
  {
    hide FirstFault;
    MatchingCloseNow(ks[index..]);
  }

  lemma AheadStatement(
    fault: Option<Fault>, ks: seq<Kind>, index: nat, start: nat, named: bool, e: Element, next: nat, named': bool)
    requires index < next <= |ks| && Ahead(fault, ks, index, 0, start, named)
    requires FaultOf(ks[index..], named) == None && ReadElement(ks[index..]) == Some((e, next - index))
    requires named' == (named || e.ModuleName?)
    ensures Ahead(fault, ks, next, 0, start, named')
  {
    hide FirstFault, ReadElement, FaultOf;
    FaultRead(ks[index..], index, named, e, next - index);
    assert ks[index..][next - index..] == ks[next..];
  }

  lemma AheadFault(fault: Option<Fault>, ks: seq<Kind>, index: nat, start: nat, named: bool, reason: ParseReason)
    requires index < |ks| && Ahead(fault, ks, index, 0, start, named) && FaultOf(ks[index..], named) == Some(reason)
    ensures fault == Some(Fault(index, reason))
  {
    hide FaultOf;
    FaultNow(ks[index..], index, named);
  }

  lemma UnmatchedFault(ks: seq<Kind>, index: nat, named: bool)
    requires index < |ks| && ks[index] == CLOSE
    ensures FaultOf(ks[index..], named) == Some(UnmatchedBrace)
  {
    assert ks[index..][0] == CLOSE;
  }

  lemma AheadEnd(fault: Option<Fault>, ks: seq<Kind>, depth: nat, start: nat, named: bool)
    requires Ahead(fault, ks, |ks|, depth, start, named)
    ensures fault == if depth == 0 then None else Some(Fault(start, UnclosedBody))
  {
    assert ks[|ks|..] == [];
  }

  ghost predicate AheadOf(fault: Option<Fault>, tokens: seq<Token>, s: Reading, start: nat) {
    s.index <= |tokens| && Ahead(fault, KindsOf(tokens), s.index, s.depth, start, s.name.Some?)
  }

  function SortedRecords(s: Reading): ParsedMojom {
    ParsedMojom(s.name, Sort(s.imports, ImportLeq), Sort(s.declarations, DeclarationLeq))
  }

  /** One step of the parser: a brace, a token inside of braces, or a statement. */
  method ParseToken(
    tokens: seq<Token>, s: Reading, ghost all: Option<seq<Element>>, ghost fault: Option<Fault>,
    ghost done: seq<Element>, ghost start: nat)
    returns (r: Result<Reading, ParseError>, ghost done': seq<Element>, ghost start': nat)
    requires Position(all, tokens, s, done, start) && Records(tokens, s, done, start) && s.index < |tokens|
    requires AheadOf(fault, tokens, s, start)
    ensures r.Ok? ==> Position(all, tokens, r.value, done', start') && Records(tokens, r.value, done', start')
    ensures r.Ok? ==> AheadOf(fault, tokens, r.value, start') && s.index < r.value.index
    ensures r.Err? ==> r.error.line == tokens[s.index].line && fault == Some(Fault(s.index, r.error.reason)) &&
                       r.error.reason != UnclosedBody
  {
    hide Position, Records, Ahead;
    done', start' := done, start;
    var token := tokens[s.index];
    ghost var ks := KindsOf(tokens);
    if token.kind == OPEN {
      PositionOpen(all, tokens, s, done, start);
      FaultOpen(fault, tokens, s, start);
      RecordsOpen(tokens, s, done, start);
      start' := if s.depth == 0 then s.index else start;
      r := Ok(s.(index := s.index + 1, depth := s.depth + 1));
    } else if token.kind == CLOSE && s.depth == 0 {
      UnmatchedFault(ks, s.index, s.name.Some?);
      AheadFault(fault, ks, s.index, start, s.name.Some?, UnmatchedBrace);
      r := Err(ParseError(token.line, UnmatchedBrace));
    } else if token.kind == CLOSE {
      PositionClose(all, tokens, s, done, start);
      RecordsClose(tokens, s, done, start);
      FaultClose(fault, tokens, s, start);
      done' := AfterClose(tokens, s, done, start);
      r := Ok(s.(index := s.index + 1, depth := s.depth - 1));
    } else if s.depth > 0 {
      PositionInside(all, tokens, s, done, start);
      RecordsInside(tokens, s, done, start);
      AheadInside(fault, ks, s.index, s.depth, start, s.name.Some?, s.index + 1, s.depth);
      r := Ok(s.(index := s.index + 1));
    } else {
      r, done' := ParseStatement(tokens, s, all, fault, done, start);
    }
  }

  lemma RecordsOpen(tokens: seq<Token>, s: Reading, done: seq<Element>, start: nat)
    requires Records(tokens, s, done, start)
    ensures Records(tokens, s.(index := s.index + 1, depth := s.depth + 1), done,
                    if s.depth == 0 then s.index else start)
  {
  }

  lemma RecordsInside(tokens: seq<Token>, s: Reading, done: seq<Element>, start: nat)
    requires Records(tokens, s, done, start) && s.depth > 0
    ensures Records(tokens, s.(index := s.index + 1), done, start)
  {
  }

  lemma FaultOpen(fault: Option<Fault>, tokens: seq<Token>, s: Reading, start: nat)
    requires AheadOf(fault, tokens, s, start) && s.index < |tokens| && tokens[s.index].kind == OPEN
    ensures AheadOf(fault, tokens, s.(index := s.index + 1, depth := s.depth + 1),
                    if s.depth == 0 then s.index else start)
  {
    hide Ahead;
    if s.depth == 0 {
      AheadOpen(fault, KindsOf(tokens), s.index, start, s.name.Some?, s.index + 1, 1);
    } else {
      AheadInside(fault, KindsOf(tokens), s.index, s.depth, start, s.name.Some?, s.index + 1, s.depth + 1);
    }
  }

  lemma FaultClose(fault: Option<Fault>, tokens: seq<Token>, s: Reading, start: nat)
    requires AheadOf(fault, tokens, s, start) && s.index < |tokens| && tokens[s.index].kind == CLOSE && s.depth > 0
    ensures AheadOf(fault, tokens, s.(index := s.index + 1, depth := s.depth - 1), start)
  {
    hide Ahead;
    if s.depth == 1 {
      AheadClose(fault, KindsOf(tokens), s.index, s.depth, start, s.name.Some?, s.index + 1, 0);
    } else {
      AheadInside(fault, KindsOf(tokens), s.index, s.depth, start, s.name.Some?, s.index + 1, s.depth - 1);
    }
  }

  method ParseStatement(
    tokens: seq<Token>, s: Reading, ghost all: Option<seq<Element>>, ghost fault: Option<Fault>,
    ghost done: seq<Element>, ghost start: nat)
    returns (r: Result<Reading, ParseError>, ghost done': seq<Element>)
    requires Position(all, tokens, s, done, start) && Records(tokens, s, done, start) && s.index < |tokens| &&
             s.depth == 0
    requires AheadOf(fault, tokens, s, start)
    requires tokens[s.index].kind != OPEN && tokens[s.index].kind != CLOSE
    ensures r.Ok? ==> Position(all, tokens, r.value, done', start) && Records(tokens, r.value, done', start)
    ensures r.Ok? ==> AheadOf(fault, tokens, r.value, start) && s.index < r.value.index
    ensures r.Err? ==> r.error.line == tokens[s.index].line && fault == Some(Fault(s.index, r.error.reason)) &&
                       r.error.reason != UnclosedBody
  {
    hide Position, Records, Ahead, FaultOf, ReadElement;
    done' := done;
    var statement := StatementAt(tokens, s.index, s.name.Some?);
    ghost var ks := KindsOf(tokens);
    if statement.Err? {
      AheadFault(fault, ks, s.index, start, s.name.Some?, statement.error.reason);
      return Err(statement.error), done';
    }
    var e, next := statement.value.0, statement.value.1;
    PositionStatement(all, tokens, s, done, start, e, next);
    ReadLength(ks[s.index..]);
    RecordsStatement(tokens, s, done, start, e, next);
    AheadStatement(fault, ks, s.index, start, s.name.Some?, e, next, AfterStatement(s, e, next, 0).name.Some?);
    return Ok(AfterStatement(s, e, next, tokens[s.index].line)), done + [e];
  }

  /** The records of the elements, or the first fault, which is on the line of its token or, when a body is not closed,
      on the last line. */
  ghost predicate IsParse(tokens: seq<Token>, lineCount: nat, r: Result<ParsedMojom, ParseError>) {
    var fault := FirstFault(KindsOf(tokens), 0, false);
    if fault.None? then
      r.Ok? && Elements(KindsOf(tokens)).Some? && Parsed(Elements(KindsOf(tokens)).value, tokens, r.value)
    else
      && r.Err? && r.error.reason == fault.value.reason
      && r.error.line == if fault.value.reason != UnclosedBody then tokens[fault.value.at].line
                         else if lineCount < 1 then 1 else lineCount
  }

  /** Parsing succeeds exactly on files of good elements with at most one module name; what is recorded are the imports
      and declarations among the elements, each on its line. Otherwise the first fault is reported. */
  method ParseMojom(tokens: seq<Token>, lineCount: nat) returns (r: Result<ParsedMojom, ParseError>)
    ensures r.Ok? <==> Readable(KindsOf(tokens), 1)
    ensures IsParse(tokens, lineCount, r)
  {
    hide Position, Records, AheadOf, Parsed, FirstFault, Elements;
    ghost var all, fault, done, start := Elements(KindsOf(tokens)), FirstFault(KindsOf(tokens), 0, false), [], 0;
    var s := Reading(0, 0, None, [], []);
    PositionStart(tokens);
    FaultlessMeans(KindsOf(tokens), 0, false);
    while s.index < |tokens|
      invariant s.index <= |tokens|
      invariant Position(all, tokens, s, done, start) && Records(tokens, s, done, start)
      invariant AheadOf(fault, tokens, s, start)
      decreases |tokens| - s.index
    {
      var step;
      step, done, start := ParseToken(tokens, s, all, fault, done, start);
      if step.Err? {
        return Err(step.error);
      }
      s := step.value;
      WithinTokens(fault, tokens, s, start);
    }
    FaultEnd(fault, tokens, s, start);
    if s.depth > 0 {
      return Err(ParseError(if lineCount < 1 then 1 else lineCount, UnclosedBody));
    }
    PositionEnd(all, tokens, s, done, start);
    return Ok(SortedRecords(s));
  }

  lemma WithinTokens(fault: Option<Fault>, tokens: seq<Token>, s: Reading, start: nat)
    requires AheadOf(fault, tokens, s, start)
    ensures s.index <= |tokens|
  {
    hide Ahead;
  }

  lemma FaultEnd(fault: Option<Fault>, tokens: seq<Token>, s: Reading, start: nat)
    requires AheadOf(fault, tokens, s, start) && s.index == |tokens|
    ensures fault == if s.depth == 0 then None else Some(Fault(start, UnclosedBody))
  {
    hide Ahead;
    AheadEnd(fault, KindsOf(tokens), s.depth, start, s.name.Some?);
  }

  lemma PositionStart(tokens: seq<Token>)
    ensures Position(Elements(KindsOf(tokens)), tokens, Reading(0, 0, None, [], []), [], 0)
    ensures Records(tokens, Reading(0, 0, None, [], []), [], 0)
    ensures AheadOf(FirstFault(KindsOf(tokens), 0, false), tokens, Reading(0, 0, None, [], []), 0)
  {
    TopStart(KindsOf(tokens));
    assert KindsOf(tokens)[0..] == KindsOf(tokens);
  }

  lemma TopStart(ks: seq<Kind>)
    ensures AtTop(Elements(ks), ks, 0, [])
  {
    assert ks[0..] == ks;
    if Elements(ks).Some? {
      assert [] + Elements(ks).value == Elements(ks).value;
    }
  }
}
