/** Dependency lists of a generated target: grouped by condition, written as GN text, evaluated by GN. */
module DependencySets {
  import opened Wrappers
  import opened Ordering
  import opened CfgParsing

  /** A Cargo dependency with its GN label; `target` is its cfg text and `condition` the translation of it. */
  datatype Mapped = Mapped(name: string, public: bool, target: Option<string>, condition: Option<string>)

  // ----- grouping -----

  /** Labels of the same file first, then by label. */
  predicate LabelLeq(a: string, b: string) {
    var localA, localB := StartsWith(a, ':'), StartsWith(b, ':');
    if localA != localB then localA else StringLeq(a, b)
  }

  lemma LabelOrder()
    ensures TotalPreorder(LabelLeq)
  {
    StringOrder();
  }

  /** Drop repeats next to each other. */
  function Dedup(s: seq<string>): (r: seq<string>)
    ensures forall x :: x in r <==> x in s
    ensures s != [] ==> r != [] && r[0] == s[0]
  {
    if |s| < 2 then s
    else
      assert forall x :: x in s <==> x == s[0] || x in s[1..];
      if s[0] == s[1] then Dedup(s[1..]) else [s[0]] + Dedup(s[1..])
  }

  function SortedLabels(s: seq<string>): seq<string> {
    Dedup(Sort(s, LabelLeq))
  }

  lemma SortedLabelsMembers(s: seq<string>)
    ensures forall x :: x in SortedLabels(s) <==> x in s
  {
    LabelOrder();
    SortCorrect(s, LabelLeq);
  }

  lemma {:induction false} BelowRest(s: seq<string>, x: string)
    requires |s| >= 2 && SortedBy(s, LabelLeq) && s[0] != s[1] && x in s[1..]
    ensures LabelLeq(s[0], x) && s[0] != x
  {
    var k :| 1 <= k < |s| && s[k] == x;
    if s[0] == x && k > 1 {
      LabelAntisymmetric(s[0], s[1]);
    }
  }

  lemma {:induction false} DedupDistinct(s: seq<string>)
    requires SortedBy(s, LabelLeq)
    ensures NoDuplicates(Dedup(s)) && SortedBy(Dedup(s), LabelLeq)
  {
    hide LabelLeq;
    if |s| >= 2 {
      DedupDistinct(s[1..]);
      if s[0] != s[1] {
        var r := Dedup(s[1..]);
        forall j | 0 <= j < |r| ensures LabelLeq(s[0], r[j]) && s[0] != r[j] {
          BelowRest(s, r[j]);
        }
      }
    }
  }

  lemma LabelAntisymmetric(a: string, b: string)
    requires LabelLeq(a, b) && LabelLeq(b, a)
    ensures a == b
  {
    StringLeqAntisymmetric(a, b);
  }

  lemma SortedLabelsDistinct(s: seq<string>)
    ensures NoDuplicates(SortedLabels(s)) && SortedBy(SortedLabels(s), LabelLeq)
  {
    LabelOrder();
    SortCorrect(s, LabelLeq);
    DedupDistinct(Sort(s, LabelLeq));
  }

  /** The labels of the dependencies of one visibility without a condition, and by condition. */
  ghost predicate IsSplit(
    ds: seq<Mapped>, public: bool, unconditional: seq<string>, conditional: map<string, seq<string>>)
  {
    && (forall l :: l in unconditional <==>
        exists d :: d in ds && d.public == public && d.condition == None && d.name == l)
    && (forall c :: c in conditional <==> exists d :: d in ds && d.public == public && d.condition == Some(c))
    && (forall c, l :: c in conditional ==>
          (l in conditional[c] <==> exists d :: d in ds && d.public == public && d.condition == Some(c) && d.name == l))
  }

  method GroupMapped(ds: seq<Mapped>, public: bool)
    returns (unconditional: seq<string>, conditional: map<string, seq<string>>)
    ensures IsSplit(ds, public, unconditional, conditional)
  {
    unconditional, conditional := [], map[];
    for i := 0 to |ds|
      invariant IsSplit(ds[..i], public, unconditional, conditional)
    {
      assert ds[..i + 1] == ds[..i] + [ds[i]];
      ghost var unconditional0, conditional0 := unconditional, conditional;
      if ds[i].public == public {
        match ds[i].condition {
          case None => unconditional := unconditional + [ds[i].name];
          case Some(c) =>
            var labels := if c in conditional then conditional[c] else [];
            conditional := conditional[c := labels + [ds[i].name]];
        }
      }
      SplitSnoc(ds[..i], ds[i], public, unconditional0, conditional0, unconditional, conditional);
    }
    assert ds[..|ds|] == ds;
  }

  lemma SplitSnoc(
    ds: seq<Mapped>, d: Mapped, public: bool, u: seq<string>, c: map<string, seq<string>>,
    u': seq<string>, c': map<string, seq<string>>)
    requires IsSplit(ds, public, u, c)
    requires u' == if d.public == public && d.condition.None? then u + [d.name] else u
    requires c' == if d.public == public && d.condition.Some?
                   then c[d.condition.value := (if d.condition.value in c then c[d.condition.value] else []) + [d.name]]
                   else c
    ensures IsSplit(ds + [d], public, u', c')
  {
    var more := ds + [d];
    assert forall x :: x in more <==> x in ds || x == d;
    forall k ensures k in c' <==> exists x :: x in more && x.public == public && x.condition == Some(k) {
      if k in c {
        var x :| x in ds && x.public == public && x.condition == Some(k);
        assert x in more;
      } else if k in c' {
        assert d in more;
      }
    }
    forall l ensures l in u' <==> exists x :: x in more && x.public == public && x.condition == None && x.name == l {
      if l in u {
        var x :| x in ds && x.public == public && x.condition == None && x.name == l;
        assert x in more;
      } else if l in u' {
        assert d in more;
      }
    }
    forall k, l | k in c'
      ensures l in c'[k] <==> exists x :: x in more && x.public == public && x.condition == Some(k) && x.name == l
    {
      if k in c && l in c[k] {
        var x :| x in ds && x.public == public && x.condition == Some(k) && x.name == l;
        assert x in more;
      } else if l in c'[k] {
        assert d in more;
      }
    }
  }

  /** Labels of the same file first, each kind by its text, none twice. */
  ghost predicate LabelsInOrder(labels: seq<string>) {
    forall i, j :: 0 <= i < j < |labels| ==>
      && labels[i] != labels[j] && (":" <= labels[j] ==> ":" <= labels[i])
      && ((":" <= labels[i] <==> ":" <= labels[j]) ==> StringLeq(labels[i], labels[j]))
  }

  lemma LabelsOrdered(labels: seq<string>)
    requires NoDuplicates(labels) && SortedBy(labels, LabelLeq)
    ensures LabelsInOrder(labels)
  {
    hide StringLeq;
    forall i, j | 0 <= i < j < |labels|
      ensures labels[i] != labels[j] && (":" <= labels[j] ==> ":" <= labels[i])
      ensures (":" <= labels[i] <==> ":" <= labels[j]) ==> StringLeq(labels[i], labels[j])
    {
      assert LabelLeq(labels[i], labels[j]);
    }
  }

  /** Group, then sort and deduplicate every group. */
  method SplitMapped(ds: seq<Mapped>, public: bool)
    returns (unconditional: seq<string>, conditional: map<string, seq<string>>)
    ensures IsSplit(ds, public, unconditional, conditional)
    ensures NoDuplicates(unconditional) && SortedBy(unconditional, LabelLeq)
    ensures forall c :: c in conditional ==> NoDuplicates(conditional[c]) && SortedBy(conditional[c], LabelLeq)
    ensures LabelsInOrder(unconditional) && forall c :: c in conditional ==> LabelsInOrder(conditional[c])
  {
    hide LabelsInOrder;
    var u, c := GroupMapped(ds, public);
    unconditional := SortedLabels(u);
    SortedLabelsMembers(u);
    SortedLabelsDistinct(u);
    LabelsOrdered(unconditional);
    conditional := map k | k in c :: SortedLabels(c[k]);
    forall k | k in c
      ensures NoDuplicates(SortedLabels(c[k])) && SortedBy(SortedLabels(c[k]), LabelLeq)
      ensures LabelsInOrder(SortedLabels(c[k])) && forall l :: l in SortedLabels(c[k]) <==> l in c[k]
    {
      SortedLabelsMembers(c[k]);
      SortedLabelsDistinct(c[k]);
      LabelsOrdered(SortedLabels(c[k]));
    }
  }

  // ----- text -----

  function ReplaceChar(s: string, c: char, sub: string): string {
    if s == "" then "" else (if s[0] == c then sub else [s[0]]) + ReplaceChar(s[1..], c, sub)
  }

  /** Backslashes first, then `$`, then quotes. */
  function EscapeGn(s: string): string {
    ReplaceChar(ReplaceChar(ReplaceChar(s, '\\', "\\\\"), '$', "\\$"), '"', "\\\"")
  }

  function Lines(indent: string, values: seq<string>): string {
    if values == [] then ""
    else indent + "\"" + EscapeGn(values[0]) + "\",\n" + Lines(indent, values[1..])
  }

  /** `name = [ … ]` or `name += [ … ]`, on one line for a single value. */
  function ListText(indent: string, name: string, operator: string, values: seq<string>): string {
    if |values| == 1 then indent + name + " " + operator + " [ \"" + EscapeGn(values[0]) + "\" ]\n"
    else indent + name + " " + operator + " [\n" + Lines(indent + "  ", values) + indent + "]\n"
  }

  /** The condition in parentheses; a condition that starts with one already has its pair. */
  function IfText(condition: string): string {
    if StartsWith(condition, '(') then "  if " + condition + " {\n" else "  if (" + condition + ") {\n"
  }

  function BlockText(name: string, condition: string, values: seq<string>): string {
    IfText(condition) + ListText("    ", name, "+=", values) + "  }\n"
  }

  function BlocksText(name: string, conditions: seq<string>, conditional: map<string, seq<string>>): string
    requires forall c :: c in conditions ==> c in conditional
  {
    if conditions == [] then ""
    else BlockText(name, conditions[0], conditional[conditions[0]]) + BlocksText(name, conditions[1..], conditional)
  }

  function HeadText(name: string, unconditional: seq<string>, hasConditional: bool): string {
    if unconditional != [] then ListText("  ", name, "=", unconditional)
    else if hasConditional then "  " + name + " = []\n"
    else ""
  }

  /** The whole dependency set, with the conditions in the given order. */
  function SetText(name: string, unconditional: seq<string>, conditions: seq<string>,
      conditional: map<string, seq<string>>)
    : string
    requires forall c :: c in conditions ==> c in conditional
  {
    HeadText(name, unconditional, conditional != map[]) + BlocksText(name, conditions, conditional)
  }

  method RenderList(before: string, indent: string, name: string, operator: string, values: seq<string>)
    returns (output: string)
    ensures output == before + ListText(indent, name, operator, values)
  {
    if |values| == 1 {
      return before + (indent + name + " " + operator + " [ \"" + EscapeGn(values[0]) + "\" ]\n");
    }
    output := before + (indent + name + " " + operator + " [\n");
    ghost var head := output;
    for i := 0 to |values|
      invariant output + Lines(indent + "  ", values[i..]) == head + Lines(indent + "  ", values)
    {
      ghost var line := indent + "  " + "\"" + EscapeGn(values[i]) + "\",\n";
      assert values[i..][1..] == values[i + 1..];
      assert Lines(indent + "  ", values[i..]) == line + Lines(indent + "  ", values[i + 1..]);
      assert (output + line) + Lines(indent + "  ", values[i + 1..]) ==
             output + (line + Lines(indent + "  ", values[i + 1..]));
      output := output + (indent + "  " + "\"" + EscapeGn(values[i]) + "\",\n");
    }
    assert output + "" == output;
    output := output + indent + "]\n";
  }

  /** The conditions of a split in the order of the sorted map. */
  ghost predicate InOrder(conditions: seq<string>, conditional: map<string, seq<string>>) {
    && NoDuplicates(conditions) && SortedBy(conditions, StringLeq)
    && forall c :: c in conditions <==> c in conditional
  }

  method Conditions(conditional: map<string, seq<string>>) returns (conditions: seq<string>)
    ensures InOrder(conditions, conditional)
  {
    var listed: seq<string> := [];
    var todo := conditional.Keys;
    while todo != {}
      invariant todo <= conditional.Keys && NoDuplicates(listed)
      invariant forall c :: c in listed <==> c in conditional && c !in todo
      decreases |todo|
    {
      var c :| c in todo;
      NoDuplicatesSnoc(listed, c);
      listed := listed + [c];
      todo := todo - {c};
    }
    StringOrder();
    SortCorrect(listed, StringLeq);
    SortNoDuplicates(listed, StringLeq);
    conditions := Sort(listed, StringLeq);
  }

  method RenderIf(before: string, condition: string) returns (output: string)
    ensures output == before + IfText(condition)
  {
    if StartsWith(condition, '(') {
      return before + ("  if " + condition + " {\n");
    }
    return before + ("  if (" + condition + ") {\n");
  }

  method RenderBlock(before: string, name: string, condition: string, values: seq<string>) returns (output: string)
    ensures output == before + BlockText(name, condition, values)
  {
    var headed := RenderIf(before, condition);
    var listed := RenderList(headed, "    ", name, "+=", values);
    output := listed + "  }\n";
    ghost var head, list := IfText(condition), ListText("    ", name, "+=", values);
    Associate(before, head, list);
    Associate(before, head + list, "  }\n");
  }

  method RenderHead(before: string, name: string, unconditional: seq<string>, hasConditional: bool)
    returns (output: string)
    ensures output == before + HeadText(name, unconditional, hasConditional)
  {
    output := before;
    if unconditional != [] {
      output := RenderList(output, "  ", name, "=", unconditional);
    } else if hasConditional {
      output := output + ("  " + name + " = []\n");
    }
  }

  method RenderBlocks(before: string, name: string, ordered: seq<string>, conditional: map<string, seq<string>>)
    returns (output: string)
    requires forall c :: c in ordered ==> c in conditional
    ensures output == before + BlocksText(name, ordered, conditional)
    decreases |ordered|
  {
    output := before;
    for i := 0 to |ordered|
      invariant output + BlocksText(name, ordered[i..], conditional) == before + BlocksText(name, ordered, conditional)
    {
      ghost var start := output;
      output := RenderBlock(output, name, ordered[i], conditional[ordered[i]]);
      BlockStep(start, name, ordered, i, conditional);
    }
    assert output + "" == output;
  }

  lemma BlockStep(start: string, name: string, ordered: seq<string>, i: nat, conditional: map<string, seq<string>>)
    requires forall c :: c in ordered ==> c in conditional
    requires i < |ordered|
    ensures start + BlocksText(name, ordered[i..], conditional) ==
            (start + BlockText(name, ordered[i], conditional[ordered[i]])) +
                BlocksText(name, ordered[i + 1..], conditional)
  {
    assert ordered[i..][1..] == ordered[i + 1..];
    Associate(start, BlockText(name, ordered[i], conditional[ordered[i]]),
              BlocksText(name, ordered[i + 1..], conditional));
  }

  method RenderDependencySet(
    before: string, name: string, unconditional: seq<string>, conditional: map<string, seq<string>>)
    returns (output: string, conditions: seq<string>)
    ensures InOrder(conditions, conditional)
    ensures output == before + SetText(name, unconditional, conditions, conditional)
  {
    var ordered := Conditions(conditional);
    conditions := ordered;
    var head := RenderHead(before, name, unconditional, conditional != map[]);
    output := RenderBlocks(head, name, ordered, conditional);
    Associate(before, HeadText(name, unconditional, conditional != map[]), BlocksText(name, ordered, conditional));
  }

  /** Extra labels count as dependencies without a condition. */
  function Extra(labels: seq<string>, public: bool): seq<Mapped> {
    seq(|labels|, i requires 0 <= i < |labels| => Mapped(labels[i], public, None, None))
  }

  lemma SplitExtended(
    ds: seq<Mapped>, extra: seq<string>, public: bool, u: seq<string>, c: map<string, seq<string>>, u': seq<string>)
    requires IsSplit(ds, public, u, c) && forall l :: l in u' <==> l in u || l in extra
    ensures IsSplit(ds + Extra(extra, public), public, u', c)
  {
    var more := ds + Extra(extra, public);
    assert forall d :: d in more <==> d in ds || d in Extra(extra, public);
    assert forall d :: d in Extra(extra, public) ==> d.condition == None && d.public == public && d.name in extra;
    forall l ensures l in u' <==> exists d :: d in more && d.public == public && d.condition == None && d.name == l {
      if l in extra {
        var i :| 0 <= i < |extra| && extra[i] == l;
        assert Extra(extra, public)[i] in more;
      } else if l in u {
        var d :| d in ds && d.public == public && d.condition == None && d.name == l;
        assert d in more;
      }
    }
    forall k ensures k in c <==> exists d :: d in more && d.public == public && d.condition == Some(k) {
      if k in c {
        var d :| d in ds && d.public == public && d.condition == Some(k);
        assert d in more;
      }
    }
    forall k, l | k in c
      ensures l in c[k] <==> exists d :: d in more && d.public == public && d.condition == Some(k) && d.name == l
    {
      if l in c[k] {
        var d :| d in ds && d.public == public && d.condition == Some(k) && d.name == l;
        assert d in more;
      }
    }
  }

  /** The private or public dependencies of a target with the extra labels of the same visibility, as text. */
  method RenderDependencies(before: string, ds: seq<Mapped>, extra: seq<string>, public: bool, name: string)
    returns (output: string, unconditional: seq<string>, conditions: seq<string>,
             conditional: map<string, seq<string>>)
    ensures IsSplit(ds + Extra(extra, public), public, unconditional, conditional)
    ensures NoDuplicates(unconditional) && SortedBy(unconditional, LabelLeq)
    ensures LabelsInOrder(unconditional) && forall c :: c in conditional ==> LabelsInOrder(conditional[c])
    ensures InOrder(conditions, conditional)
    ensures output == before + SetText(name, unconditional, conditions, conditional)
  {
    hide LabelsInOrder;
    var u, c := SplitMapped(ds, public);
    var all := SortedLabels(u + extra);
    SortedLabelsMembers(u + extra);
    SortedLabelsDistinct(u + extra);
    LabelsOrdered(all);
    SplitExtended(ds, extra, public, u, c, all);
    unconditional, conditional := all, c;
    output, conditions := RenderDependencySet(before, name, all, c);
  }
}
