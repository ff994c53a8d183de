/** The C exports of a package: the functions marked for export outside of conditional sources. */
module AbiExports {
  import opened Wrappers
  import opened ConditionalModules

  /** A function marked for export, conditional by itself, an enclosing module or its file. */
  datatype Export = Export(fn: Fn, source: string, conditional: bool)

  function ItemMarked(item: Item, source: string, inherited: bool): seq<Export>
    decreases item
  {
    match item
    case Function(fn) =>
      if fn.exportName || fn.noMangle then [Export(fn, source, inherited || fn.conditional)] else []
    case InlineModule(_, conditional, content) => Marked(content, source, inherited || conditional)
    case _ => []
  }

  /** The marked functions of an item list in order. */
  function Marked(items: seq<Item>, source: string, inherited: bool): seq<Export>
    decreases items
  {
    if items == [] then [] else ItemMarked(items[0], source, inherited) + Marked(items[1..], source, inherited)
  }

  /** Everything marked below a conditional parent is conditional. */
  lemma {:induction false} MarkedBelowConditional(items: seq<Item>, source: string)
    ensures forall e :: e in Marked(items, source, true) ==> e.conditional
    decreases items
  {
    if items != [] {
      MarkedBelowConditional(items[1..], source);
      if items[0].InlineModule? {
        MarkedBelowConditional(items[0].content, source);
      }
    }
  }

  /** Why a marked function cannot be exported, if it cannot. */
  function ExportProblem(e: Export): Option<AbiError> {
    if e.fn.exportName then Some(UnsupportedExportName(e.fn, e.source))
    else if e.conditional then Some(ConditionalExport(e.fn, e.source))
    else if !e.fn.isPublic then Some(NonPublicExport(e.fn, e.source))
    else if !e.fn.abiC then Some(UnsupportedExportAbi(e.fn, e.source))
    else if !e.fn.supported then Some(UnsupportedSignature(e.fn, e.source))
    else None
  }

  type Table = map<string, Location>

  /** The table after registering the exports one by one, or the error of the first that is a problem or whose name is
      taken. */
  function Register(es: seq<Export>, before: Table): Result<Table, AbiError> {
    if es == [] then Ok(before)
    else
      match Register(es[..|es| - 1], before)
      case Err(x) => Err(x)
      case Ok(t) => RegisterOne(es[|es| - 1], t)
  }

  function RegisterOne(e: Export, t: Table): Result<Table, AbiError> {
    var location := Location(e.source, e.fn.line);
    match ExportProblem(e)
    case Some(x) => Err(x)
    case None =>
      if e.fn.name in t then Err(DuplicateExport(e.fn, t[e.fn.name], location)) else Ok(t[e.fn.name := location])
  }

  function RegisterThen(t: Result<Table, AbiError>, es: seq<Export>): Result<Table, AbiError> {
    match t
    case Ok(t) => Register(es, t)
    case Err(x) => Err(x)
  }

  lemma {:induction false} RegisterAppend(a: seq<Export>, b: seq<Export>, before: Table)
    ensures Register(a + b, before) == RegisterThen(Register(a, before), b)
    decreases |b|
  {
    if b == [] {
      assert a + b == a;
    } else {
      assert (a + b)[..|a + b| - 1] == a + b[..|b| - 1];
      RegisterAppend(a, b[..|b| - 1], before);
    }
  }

  /** The function may be exported under its name. */
  ghost predicate Fit(e: Export) {
    !e.fn.exportName && !e.conditional && e.fn.isPublic && e.fn.abiC && e.fn.supported
  }

  /** What is wrong with the export at this position, none before it being wrong: the first of these that applies. */
  ghost predicate FaultAt(es: seq<Export>, i: nat, x: AbiError)
    requires i < |es|
  {
    var fn, file := es[i].fn, es[i].source;
    if fn.exportName then x == UnsupportedExportName(fn, file)
    else if es[i].conditional then x == ConditionalExport(fn, file)
    else if !fn.isPublic then x == NonPublicExport(fn, file)
    else if !fn.abiC then x == UnsupportedExportAbi(fn, file)
    else if !fn.supported then x == UnsupportedSignature(fn, file)
    else
      exists j :: 0 <= j < i && es[j].fn.name == fn.name &&
                  x == DuplicateExport(fn, Location(es[j].source, es[j].fn.line), Location(file, fn.line))
  }

  /** No export is a problem and no name occurs twice. */
  ghost predicate Exportable(es: seq<Export>) {
    && (forall i :: 0 <= i < |es| ==> Fit(es[i]))
    && (forall i, j :: 0 <= i < j < |es| ==> es[i].fn.name != es[j].fn.name)
  }

  /** The table maps exactly the exported names to where they are. */
  ghost predicate Locates(t: Table, es: seq<Export>) {
    && (forall i :: 0 <= i < |es| ==> es[i].fn.name in t && t[es[i].fn.name] == Location(es[i].source, es[i].fn.line))
    && (forall name :: name in t ==> exists i :: 0 <= i < |es| && es[i].fn.name == name)
  }

  lemma FitMeans(es: seq<Export>, e: Export)
    ensures Fit(e) <==> ExportProblem(e).None?
    ensures ExportProblem(e).Some? ==> FaultAt(es + [e], |es|, ExportProblem(e).value)
  {
    assert (es + [e])[|es|] == e;
  }

  lemma ExportableSnoc(es: seq<Export>, e: Export, t: Table)
    requires Locates(t, es) && Exportable(es)
    ensures Exportable(es + [e]) <==> RegisterOne(e, t).Ok?
    ensures RegisterOne(e, t).Err? ==> FaultAt(es + [e], |es|, RegisterOne(e, t).error)
  {
    FitMeans(es, e);
    hide Fit, ExportProblem;
    var all := es + [e];
    assert all[|es|] == e && forall i :: 0 <= i < |es| ==> all[i] == es[i];
    if RegisterOne(e, t).Ok? {
      forall i, j | 0 <= i < j < |all| ensures all[i].fn.name != all[j].fn.name {
        assert all[i] == es[i] && es[i].fn.name in t;
      }
    } else if ExportProblem(e).None? {
      TakenFault(es, e, t);
    }
  }

  lemma TakenFault(es: seq<Export>, e: Export, t: Table)
    requires Locates(t, es) && Fit(e) && e.fn.name in t
    ensures FaultAt(es + [e], |es|, DuplicateExport(e.fn, t[e.fn.name], Location(e.source, e.fn.line)))
    ensures !Exportable(es + [e])
  {
    var all := es + [e];
    var j :| 0 <= j < |es| && es[j].fn.name == e.fn.name;
    assert all[|es|] == e && all[j] == es[j];
  }

  lemma LocatesSnoc(es: seq<Export>, e: Export, t: Table)
    requires Locates(t, es) && e.fn.name !in t
    ensures Locates(t[e.fn.name := Location(e.source, e.fn.line)], es + [e])
  {
    var all, u := es + [e], t[e.fn.name := Location(e.source, e.fn.line)];
    assert all[|es|] == e && forall i :: 0 <= i < |es| ==> all[i] == es[i];
    forall name | name in u ensures exists i :: 0 <= i < |all| && all[i].fn.name == name {
      if name == e.fn.name {
        assert all[|es|].fn.name == name;
      } else {
        var i :| 0 <= i < |es| && es[i].fn.name == name;
        assert all[i].fn.name == name;
      }
    }
  }

  /** Some export is at fault, and all before it can be exported together. */
  ghost predicate FirstFault(es: seq<Export>, x: AbiError) {
    exists i: nat :: i < |es| && Exportable(es[..i]) && FaultAt(es, i, x)
  }

  lemma FaultLonger(es: seq<Export>, e: Export, x: AbiError)
    requires FirstFault(es, x)
    ensures FirstFault(es + [e], x) && !Exportable(es + [e])
  {
    hide Exportable;
    var i: nat :| i < |es| && Exportable(es[..i]) && FaultAt(es, i, x);
    var all := es + [e];
    assert all[..i] == es[..i] && all[i] == es[i] && forall j :: 0 <= j < i ==> all[j] == es[j];
    FaultNotExportable(es, i, x);
    if Exportable(all) {
      ExportablePrefix(es, e);
    }
  }

  lemma ExportablePrefix(es: seq<Export>, e: Export)
    requires Exportable(es + [e])
    ensures Exportable(es)
  {
    assert forall i :: 0 <= i < |es| ==> (es + [e])[i] == es[i];
  }

  lemma FaultNotExportable(es: seq<Export>, i: nat, x: AbiError)
    requires i < |es| && FaultAt(es, i, x)
    ensures !Exportable(es)
  {
  }

  /** Registering one by one locates every export, or stops at the first fault. */
  lemma {:induction false} RegisterMeans(es: seq<Export>)
    ensures Register(es, map[]).Ok? <==> Exportable(es)
    ensures Exportable(es) ==> Locates(Register(es, map[]).value, es)
    ensures Register(es, map[]).Err? ==> FirstFault(es, Register(es, map[]).error)
  {
    if es != [] {
      hide Exportable, Locates, FaultAt, FirstFault, RegisterOne;
      var front, last := es[..|es| - 1], es[|es| - 1];
      assert es == front + [last];
      RegisterMeans(front);
      match Register(front, map[]) {
        case Ok(t) =>
          ExportableSnoc(front, last, t);
          RegisteredLast(front, last, t);
        case Err(x) =>
          FaultLonger(front, last, x);
      }
    }
  }

  lemma RegisteredLast(front: seq<Export>, last: Export, t: Table)
    requires Locates(t, front) && Exportable(front)
    requires RegisterOne(last, t).Err? ==> FaultAt(front + [last], |front|, RegisterOne(last, t).error)
    ensures RegisterOne(last, t).Ok? ==> Locates(RegisterOne(last, t).value, front + [last])
    ensures RegisterOne(last, t).Err? ==> FirstFault(front + [last], RegisterOne(last, t).error)
  {
    hide Exportable, Locates, FaultAt, ExportProblem;
    if RegisterOne(last, t).Ok? {
      LocatesSnoc(front, last, t);
    } else {
      assert (front + [last])[..|front|] == front;
    }
  }

  lemma {:induction false} MarkedAppend(a: seq<Item>, b: seq<Item>, source: string, inherited: bool)
    ensures Marked(a + b, source, inherited) == Marked(a, source, inherited) + Marked(b, source, inherited)
    decreases |a|
  {
    if a == [] {
      assert a + b == b;
    } else {
      assert (a + b)[1..] == a[1..] + b;
      MarkedAppend(a[1..], b, source, inherited);
    }
  }

  ghost predicate Collected(es: seq<Export>, before: Table, r: Result<Table, AbiError>) {
    r == Register(es, before)
  }

  lemma CollectStep(done: seq<Export>, next: seq<Export>, before: Table, t: Table, r: Result<Table, AbiError>)
    requires Collected(done, before, Ok(t)) && Collected(next, t, r)
    ensures Collected(done + next, before, r)
  {
    RegisterAppend(done, next, before);
  }

  lemma CollectFailed(done: seq<Export>, rest: seq<Export>, before: Table, r: Result<Table, AbiError>)
    requires Collected(done, before, r) && r.Err?
    ensures Collected(done + rest, before, r)
  {
    RegisterAppend(done, rest, before);
  }

  lemma MarkedStep(items: seq<Item>, source: string, inherited: bool, i: nat)
    requires i < |items|
    ensures Marked(items[..i + 1], source, inherited) ==
            Marked(items[..i], source, inherited) + Marked([items[i]], source, inherited)
    ensures Marked(items, source, inherited) ==
            Marked(items[..i + 1], source, inherited) + Marked(items[i + 1..], source, inherited)
  {
    assert items[..i + 1] == items[..i] + [items[i]];
    MarkedAppend(items[..i], [items[i]], source, inherited);
    assert items == items[..i + 1] + items[i + 1..];
    MarkedAppend(items[..i + 1], items[i + 1..], source, inherited);
  }

  method CollectExports(items: seq<Item>, source: string, conditionalParent: bool, before: Table)
    returns (r: Result<Table, AbiError>)
    ensures Collected(Marked(items, source, conditionalParent), before, r)
    decreases items
  {
    var exports := before;
    for i := 0 to |items|
      invariant Collected(Marked(items[..i], source, conditionalParent), before, Ok(exports))
    {
      var one := CollectItem(items[i], source, conditionalParent, exports);
      MarkedStep(items, source, conditionalParent, i);
      CollectStep(
        Marked(items[..i], source, conditionalParent), Marked([items[i]], source, conditionalParent), before, exports,
        one);
      if one.Err? {
        CollectFailed(
          Marked(items[..i + 1], source, conditionalParent), Marked(items[i + 1..], source, conditionalParent), before,
          one);
        return one;
      }
      exports := one.value;
    }
    assert items[..|items|] == items;
    return Ok(exports);
  }

  lemma MarkedSingle(item: Item, source: string, inherited: bool)
    ensures Marked([item], source, inherited) == ItemMarked(item, source, inherited)
  {
    assert [item][1..] == [];
  }

  method CollectItem(item: Item, source: string, conditionalParent: bool, exports: Table)
    returns (r: Result<Table, AbiError>)
    ensures Collected(Marked([item], source, conditionalParent), exports, r)
    decreases item
  {
    MarkedSingle(item, source, conditionalParent);
    match item {
      case InlineModule(_, conditional, content) =>
        r := CollectExports(content, source, conditionalParent || conditional, exports);
      case Function(fn) =>
        if !fn.exportName && !fn.noMangle {
          return Ok(exports);
        }
        r := RegisterExport(Export(fn, source, conditionalParent || fn.conditional), exports);
      case _ =>
        return Ok(exports);
    }
  }

  method RegisterExport(e: Export, exports: Table) returns (r: Result<Table, AbiError>)
    ensures Collected([e], exports, r)
  {
    var problem := ExportProblem(e);
    assert [e][..0] == [] && Register([], exports) == Ok(exports);
    if problem.Some? {
      return Err(problem.value);
    }
    var location := Location(e.source, e.fn.line);
    if e.fn.name in exports {
      return Err(DuplicateExport(e.fn, exports[e.fn.name], location));
    }
    return Ok(exports[e.fn.name := location]);
  }

  /** The marked functions of all files, the given ones compiled conditionally. */
  function AllMarked(files: Sources, order: seq<string>, conditional: set<string>): seq<Export>
    requires forall i :: 0 <= i < |order| ==> order[i] in files
  {
    if order == [] then []
    else
      var source := order[|order| - 1];
      AllMarked(files, order[..|order| - 1], conditional) + Marked(files[source].items, source, source in conditional)
  }

  lemma {:induction false} AllMarkedSplit(files: Sources, order: seq<string>, conditional: set<string>, i: nat)
    requires i <= |order| && forall j :: 0 <= j < |order| ==> order[j] in files
    ensures AllMarked(files, order[..i], conditional) <= AllMarked(files, order, conditional)
    decreases |order|
  {
    if i < |order| {
      var front := order[..|order| - 1];
      AllMarkedSplit(files, front, conditional, i);
      assert front[..i] == order[..i];
    } else {
      assert order[..i] == order;
    }
  }

  lemma AllMarkedStep(files: Sources, order: seq<string>, conditional: set<string>, i: nat)
    requires i < |order| && forall j :: 0 <= j < |order| ==> order[j] in files
    ensures AllMarked(files, order[..i + 1], conditional) ==
            AllMarked(files, order[..i], conditional) +
            Marked(files[order[i]].items, order[i], order[i] in conditional)
  {
    assert order[..i + 1][..i] == order[..i];
  }

  method CollectAll(files: Sources, order: seq<string>, conditional: set<string>) returns (r: Result<Table, AbiError>)
    requires forall i :: 0 <= i < |order| ==> order[i] in files
    ensures Collected(AllMarked(files, order, conditional), map[], r)
  {
    var exports: Table := map[];
    for i := 0 to |order|
      invariant Collected(AllMarked(files, order[..i], conditional), map[], Ok(exports))
    {
      var source := order[i];
      var one := CollectExports(files[source].items, source, source in conditional, exports);
      AllMarkedStep(files, order, conditional, i);
      CollectStep(
        AllMarked(files, order[..i], conditional), Marked(files[source].items, source, source in conditional), map[],
        exports, one);
      if one.Err? {
        CollectAllFailed(files, order, conditional, i, one);
        return one;
      }
      exports := one.value;
    }
    assert order[..|order|] == order;
    return Ok(exports);
  }

  lemma CollectAllFailed(files: Sources, order: seq<string>, conditional: set<string>, i: nat,
      r: Result<Table, AbiError>)
    requires i < |order| && forall j :: 0 <= j < |order| ==> order[j] in files
    requires Collected(AllMarked(files, order[..i + 1], conditional), map[], r) && r.Err?
    ensures Collected(AllMarked(files, order, conditional), map[], r)
  {
    AllMarkedSplit(files, order, conditional, i + 1);
    var done, all := AllMarked(files, order[..i + 1], conditional), AllMarked(files, order, conditional);
    CollectFailed(done, all[|done|..], map[], r);
    assert done + all[|done|..] == all;
  }

  ghost function ConditionalSet(files: Sources): (s: set<string>)
    ensures forall source :: source in s <==> source in files && Conditional(files, source)
  {
    set source | source in files && Conditional(files, source)
  }

  /** All exports of a package, or an error exactly when a path conflicts or an export is conditional, malformed or
      duplicated. */
  method DiscoverExports(files: Sources, order: seq<string>) returns (r: Result<Table, AbiError>)
    requires forall source :: source in order <==> source in files
    ensures r.Ok? <==> !PathConflict(files) && Exportable(AllMarked(files, order, ConditionalSet(files)))
    ensures r.Ok? ==> Locates(r.value, AllMarked(files, order, ConditionalSet(files)))
    ensures r.Err? ==>
              if PathConflict(files) then IsPathConflict(files, r.error)
              else FirstFault(AllMarked(files, order, ConditionalSet(files)), r.error)
  {
    var scanned := ConditionalModuleSources(files, order);
    if scanned.Err? {
      return Err(scanned.error);
    }
    EveryConditionalIsASource(files, scanned.value);
    RegisterMeans(AllMarked(files, order, scanned.value));
    r := CollectAll(files, order, scanned.value);
  }

  lemma EveryConditionalIsASource(files: Sources, s: set<string>)
    requires Closed(files, s) && s <= files.Keys && forall source :: source in s <==> Conditional(files, source)
    ensures s == ConditionalSet(files)
  {
  }

  /** When a package has exports, no conditional source marks a function. */
  lemma ConditionalSourcesExportNothing(files: Sources, order: seq<string>, i: nat)
    requires forall j :: 0 <= j < |order| ==> order[j] in files
    requires Exportable(AllMarked(files, order, ConditionalSet(files)))
    requires i < |order| && Conditional(files, order[i])
    ensures Marked(files[order[i]].items, order[i], true) == []
  {
    hide Exportable, Conditional, Marked;
    var s := ConditionalSet(files);
    MarkedBelowConditional(files[order[i]].items, order[i]);
    AllMarkedSplit(files, order, s, i + 1);
    assert order[..i + 1][..i] == order[..i];
    OwnExport(AllMarked(files, order[..i], s), Marked(files[order[i]].items, order[i], true),
              AllMarked(files, order, s));
  }

  lemma OwnExport(before: seq<Export>, own: seq<Export>, all: seq<Export>)
    requires before + own <= all && Exportable(all) && forall e :: e in own ==> e.conditional
    ensures own == []
  {
    hide Fit;
    if own != [] {
      assert all[|before|] == own[0];
      FitIsUnconditional(all[|before|]);
    }
  }

  lemma FitIsUnconditional(e: Export)
    requires Fit(e)
    ensures !e.conditional
  {
  }
}
