/** Where in the item trees of a file the modules are declared and the functions are marked. */
module SourceItems {
  import opened Wrappers
  import opened ConditionalModules
  import opened AbiExports

  /** The item found by taking the item at each position, each but the last an inline module. */
  function ItemAt(items: seq<Item>, path: seq<nat>): Option<Item>
    decreases |path|
  {
    if path == [] || path[0] >= |items| then None
    else if |path| == 1 then Some(items[path[0]])
    else if items[path[0]].InlineModule? then ItemAt(items[path[0]].content, path[1..])
    else None
  }

  /** The names of the inline modules around it. */
  function NamesAt(items: seq<Item>, path: seq<nat>): seq<string>
    requires ItemAt(items, path).Some?
    decreases |path|
  {
    if |path| == 1 then [] else [items[path[0]].name] + NamesAt(items[path[0]].content, path[1..])
  }

  /** Some inline module around it is conditional. */
  predicate ConditionalAt(items: seq<Item>, path: seq<nat>)
    requires ItemAt(items, path).Some?
    decreases |path|
  {
    |path| > 1 && (items[path[0]].conditional || ConditionalAt(items[path[0]].content, path[1..]))
  }

  /** The directory behind some names. */
  function Below(base: string, names: seq<string>): string
    decreases |names|
  {
    if names == [] then base else Below(if base == "" then names[0] else base + "/" + names[0], names[1..])
  }

  /** A module is declared without content at this place of the tree. */
  ghost predicate DeclaredAt(items: seq<Item>, base: string, inherited: bool, path: seq<nat>, e: External) {
    && ItemAt(items, path).Some? && ItemAt(items, path).value.ExternalModule?
    && var item := ItemAt(items, path).value;
       && e.base == Below(base, NamesAt(items, path)) && e.name == item.name && e.line == item.line
       && (e.conditional <==> inherited || ConditionalAt(items, path) || item.conditional) && e.hasPath == item.hasPath
  }

  /** A function is marked at this place of the tree. */
  ghost predicate MarkedAt(items: seq<Item>, source: string, inherited: bool, path: seq<nat>, e: Export) {
    && ItemAt(items, path).Some? && ItemAt(items, path).value.Function?
    && var fn := ItemAt(items, path).value.fn;
       && (fn.exportName || fn.noMangle) && e.fn == fn && e.source == source
       && (e.conditional <==> inherited || ConditionalAt(items, path) || fn.conditional)
  }

  lemma Shifted(items: seq<Item>, path: seq<nat>)
    requires items != [] && path != []
    ensures ItemAt(items[1..], path) == ItemAt(items, [path[0] + 1] + path[1..])
    ensures ItemAt(items[1..], path).Some? ==>
              && NamesAt(items[1..], path) == NamesAt(items, [path[0] + 1] + path[1..])
              && (ConditionalAt(items[1..], path) <==> ConditionalAt(items, [path[0] + 1] + path[1..]))
  {
    assert ([path[0] + 1] + path[1..])[1..] == path[1..];
  }

  lemma Inside(items: seq<Item>, path: seq<nat>)
    requires items != [] && items[0].InlineModule? && path != []
    ensures ItemAt(items, [0] + path) == ItemAt(items[0].content, path)
    ensures ItemAt(items, [0] + path).Some? ==>
              && NamesAt(items, [0] + path) == [items[0].name] + NamesAt(items[0].content, path)
              && (ConditionalAt(items, [0] + path) <==> items[0].conditional || ConditionalAt(items[0].content, path))
  {
    assert ([0] + path)[1..] == path;
  }

  /** The modules listed are exactly those declared in the tree, below the directories of their inline modules. */
  lemma {:induction false} ExternalsMean(items: seq<Item>, base: string, inherited: bool, e: External)
    ensures e in Externals(items, base, inherited) <==> exists path :: DeclaredAt(items, base, inherited, path, e)
    decreases items
  {
    if e in Externals(items, base, inherited) {
      var path := ExternalAt(items, base, inherited, e);
    }
    if path :| DeclaredAt(items, base, inherited, path, e) {
      ExternalListed(items, base, inherited, path, e);
    }
  }

  lemma {:induction false} ExternalAt(items: seq<Item>, base: string, inherited: bool, e: External)
    returns (path: seq<nat>)
    requires e in Externals(items, base, inherited)
    ensures DeclaredAt(items, base, inherited, path, e)
    decreases items
  {
    var first := items[0];
    if e in ItemExternals(first, base, inherited) {
      if first.ExternalModule? {
        path := [0];
      } else {
        var inner := ExternalAt(first.content, Join(base, first.name), inherited || first.conditional, e);
        Inside(items, inner);
        path := [0] + inner;
        assert ([first.name] + NamesAt(first.content, inner))[1..] == NamesAt(first.content, inner);
      }
    } else {
      var rest := ExternalAt(items[1..], base, inherited, e);
      Shifted(items, rest);
      path := [rest[0] + 1] + rest[1..];
    }
  }

  lemma {:induction false} ExternalListed(
    items: seq<Item>, base: string, inherited: bool, path: seq<nat>, e: External)
    requires DeclaredAt(items, base, inherited, path, e)
    ensures e in Externals(items, base, inherited)
    decreases items
  {
    var first := items[0];
    if path[0] > 0 {
      var rest := [path[0] - 1] + path[1..];
      assert [rest[0] + 1] + rest[1..] == path;
      Shifted(items, rest);
      ExternalListed(items[1..], base, inherited, rest, e);
    } else if |path| > 1 {
      var inner := path[1..];
      assert [0] + inner == path;
      Inside(items, inner);
      assert ([first.name] + NamesAt(first.content, inner))[1..] == NamesAt(first.content, inner);
      ExternalListed(first.content, Join(base, first.name), inherited || first.conditional, inner, e);
    }
  }

  /** The exports listed are exactly the functions marked in the tree. */
  lemma {:induction false} MarkedMean(items: seq<Item>, source: string, inherited: bool, e: Export)
    ensures e in Marked(items, source, inherited) <==> exists path :: MarkedAt(items, source, inherited, path, e)
  {
    if e in Marked(items, source, inherited) {
      var path := ExportAt(items, source, inherited, e);
    }
    if path :| MarkedAt(items, source, inherited, path, e) {
      ExportListed(items, source, inherited, path, e);
    }
  }

  lemma {:induction false} ExportAt(items: seq<Item>, source: string, inherited: bool, e: Export)
    returns (path: seq<nat>)
    requires e in Marked(items, source, inherited)
    ensures MarkedAt(items, source, inherited, path, e)
    decreases items
  {
    var first := items[0];
    if e in ItemMarked(first, source, inherited) {
      if first.Function? {
        path := [0];
      } else {
        var inner := ExportAt(first.content, source, inherited || first.conditional, e);
        Inside(items, inner);
        path := [0] + inner;
      }
    } else {
      var rest := ExportAt(items[1..], source, inherited, e);
      Shifted(items, rest);
      path := [rest[0] + 1] + rest[1..];
    }
  }

  lemma {:induction false} ExportListed(items: seq<Item>, source: string, inherited: bool, path: seq<nat>, e: Export)
    requires MarkedAt(items, source, inherited, path, e)
    ensures e in Marked(items, source, inherited)
    decreases items
  {
    var first := items[0];
    if path[0] > 0 {
      var rest := [path[0] - 1] + path[1..];
      assert [rest[0] + 1] + rest[1..] == path;
      Shifted(items, rest);
      ExportListed(items[1..], source, inherited, rest, e);
    } else if |path| > 1 {
      var inner := path[1..];
      assert [0] + inner == path;
      Inside(items, inner);
      ExportListed(first.content, source, inherited || first.conditional, inner, e);
    }
  }
}
