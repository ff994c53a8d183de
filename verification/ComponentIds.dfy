/** The ids of components: made from their paths and owners, and made unique by a hash that is not checked again. */
module ComponentIds {
  import opened Ordering
  import opened ManifestModel
  import opened Components
  import opened ComponentGroups
  import L = LabelIds

  type Hash = string -> L.Hash32

  // ----- texts as ids -----

  /** Lower-case letters and digits, and one underscore for every run of other characters behind the first of them. */
  function Collapsed(s: string): string {
    if s == "" then ""
    else
      var front, c := Collapsed(s[..|s| - 1]), s[|s| - 1];
      if L.IsAlphanumeric(c) then front + [L.ToLower(c)]
      else if front != "" && front[|front| - 1] != '_' then front + "_"
      else front
  }

  function WithoutTail(s: string): string {
    if s != "" && s[|s| - 1] == '_' then WithoutTail(s[..|s| - 1]) else s
  }

  function Sanitized(value: string): string {
    var text := WithoutTail(Collapsed(value));
    if text == "" then "component" else if L.IsDigit(text[0]) then "component_" + text else text
  }

  method SanitizeId(value: string) returns (output: string)
    ensures output == Sanitized(value)
  {
    output := "";
    var separator := false;
    for i := 0 to |value|
      invariant output == Collapsed(value[..i])
      invariant separator <==> output != "" && output[|output| - 1] == '_'
    {
      assert value[..i + 1][..i] == value[..i];
      if L.IsAlphanumeric(value[i]) {
        output := output + [L.ToLower(value[i])];
        separator := false;
      } else if output != "" && !separator {
        output := output + "_";
        separator := true;
      }
    }
    assert value[..|value|] == value;
    while output != "" && output[|output| - 1] == '_'
      invariant WithoutTail(output) == WithoutTail(Collapsed(value))
      decreases |output|
    {
      output := output[..|output| - 1];
    }
    if output == "" {
      output := "component";
    } else if L.IsDigit(output[0]) {
      output := "component_" + output;
    }
  }

  /** Starts with a letter, ends with a letter or digit, and has single underscores between. */
  ghost predicate IsComponentId(s: string) {
    s != "" && L.IsLower(s[0]) && L.Separated(s) && s[|s| - 1] != '_'
  }

  lemma {:induction false} CollapsedSeparated(s: string)
    ensures L.Separated(Collapsed(s))
  {
    if s != "" {
      CollapsedSeparated(s[..|s| - 1]);
    }
  }

  lemma {:induction false} WithoutTailSeparated(s: string)
    requires L.Separated(s)
    ensures L.Separated(WithoutTail(s))
    ensures WithoutTail(s) == "" || WithoutTail(s)[|WithoutTail(s)| - 1] != '_'
  {
    if s != "" && s[|s| - 1] == '_' {
      WithoutTailSeparated(s[..|s| - 1]);
    }
  }

  /** Text that may stand behind an id and an underscore. */
  ghost predicate IsTail(s: string) {
    s != "" && L.Separated(s) && s[|s| - 1] != '_'
  }

  lemma {:induction false} JoinedIsId(a: string, b: string)
    requires IsComponentId(a) && IsTail(b)
    ensures IsComponentId(a + "_" + b)
  {
    var s := a + "_" + b;
    assert s[0] == a[0] && s[|s| - 1] == b[|b| - 1];
    forall i | 0 <= i < |s| ensures L.IdChar(s[i]) {
      JoinedAt(a, b, i);
    }
    forall i, j | 0 <= i && j == i + 1 && j < |s| ensures !(s[i] == '_' && s[j] == '_') {
      JoinedAt(a, b, i);
      JoinedAt(a, b, j);
    }
  }

  lemma JoinedAt(a: string, b: string, i: nat)
    requires i <= |a| + |b|
    ensures (a + "_" + b)[i] == if i < |a| then a[i] else if i == |a| then '_' else b[i - |a| - 1]
  {
  }

  /** Whatever the text, an id comes out. */
  lemma SanitizedIsId(value: string)
    ensures IsComponentId(Sanitized(value))
  {
    hide L.NoDoubleUnderscore, Collapsed, WithoutTail;
    CollapsedSeparated(value);
    WithoutTailSeparated(Collapsed(value));
    var text := WithoutTail(Collapsed(value));
    ComponentIsId();
    if text != "" && L.IsDigit(text[0]) {
      JoinedIsId("component", text);
      assert "component" + "_" == "component_";
    }
  }

  lemma ComponentIsId()
    ensures IsComponentId("component")
  {
  }

  lemma {:induction false} SeparatedCollapsed(s: string)
    requires L.Separated(s)
    ensures Collapsed(s) == s
  {
    if s != "" {
      SeparatedCollapsed(s[..|s| - 1]);
      assert s == s[..|s| - 1] + [s[|s| - 1]];
    }
  }

  /** Ids are left alone. */
  lemma SanitizedKeepsIds(s: string)
    requires IsComponentId(s)
    ensures Sanitized(s) == s
  {
    SeparatedCollapsed(s);
  }

  /** The letters and digits of the text are kept in order, behind `component` when there are none or a digit is
      first. */
  lemma {:induction false} CollapsedLetters(s: string)
    ensures L.Letters(Collapsed(s)) == L.Letters(s)
  {
    if s != "" {
      var front, c := s[..|s| - 1], s[|s| - 1];
      CollapsedLetters(front);
      assert s == front + [c];
      L.LettersSnoc(front, c);
      L.LettersSnoc(Collapsed(front), L.ToLower(c));
      L.LettersSnoc(Collapsed(front), '_');
    }
  }

  lemma {:induction false} WithoutTailLetters(s: string)
    ensures L.Letters(WithoutTail(s)) == L.Letters(s)
  {
    if s != "" && s[|s| - 1] == '_' {
      WithoutTailLetters(s[..|s| - 1]);
      assert s == s[..|s| - 1] + ['_'];
      L.LettersSnoc(s[..|s| - 1], '_');
    }
  }

  lemma FirstLetter(text: string)
    requires text != "" && L.IdChar(text[0]) && text[0] != '_'
    ensures L.Letters(text) != "" && L.Letters(text)[0] == text[0]
  {
    assert L.Letters(text) == [L.ToLower(text[0])] + L.Letters(text[1..]);
  }

  lemma BehindComponent(text: string)
    ensures L.Letters("component_" + text) == "component" + L.Letters(text)
  {
    hide L.Letters;
    L.LettersOfPrefix("component_", text);
    L.LettersOfId("component");
    L.LettersSnoc("component", '_');
    assert "component" + ['_'] == "component_";
  }

  lemma SanitizedLetters(value: string)
    ensures var kept := L.Letters(value);
            L.Letters(Sanitized(value)) ==
            if kept == "" then "component" else if L.IsDigit(kept[0]) then "component" + kept else kept
  {
    hide L.Letters, Collapsed, WithoutTail, L.NoDoubleUnderscore;
    var text := WithoutTail(Collapsed(value));
    CollapsedLetters(value);
    WithoutTailLetters(Collapsed(value));
    CollapsedSeparated(value);
    WithoutTailSeparated(Collapsed(value));
    if text == "" {
      L.LettersOfId("");
      L.LettersOfId("component");
    } else {
      FirstLetter(text);
      BehindComponent(text);
    }
  }

  lemma {:induction false} CollapsedScanned(s: string)
    ensures Collapsed(s) == L.Scanned(s)
  {
    hide L.Scanned;
    L.ScannedStart();
    if s != "" {
      var front, c := s[..|s| - 1], s[|s| - 1];
      CollapsedScanned(front);
      assert s == front + [c] && "_" == ['_'];
      L.ScannedStep(front, c);
    }
  }

  lemma WithoutTailScanned(s: string)
    ensures WithoutTail(L.Scanned(s)) == L.JoinWords(L.Words(s))
    ensures L.Words(s) != [] ==> L.JoinWords(L.Words(s)) != "" && L.JoinWords(L.Words(s))[0] == L.Words(s)[0][0]
  {
    hide L.Words, L.JoinWords;
    if L.Words(s) == [] {
      JoinNone();
    } else {
      var joined := L.JoinWords(L.Words(s));
      L.JoinEnd(L.Words(s));
      L.WordsPlain(s);
      assert (joined + "_")[..|joined|] == joined && joined + "" == joined;
    }
  }

  lemma JoinNone()
    ensures L.JoinWords([]) == ""
  {
  }

  /** A sanitised text is the words of the text joined by underscores, behind `component` when they start with a
      digit. */
  lemma SanitizedWords(value: string)
    ensures var words := L.Words(value);
            Sanitized(value) ==
            if words == [] then "component"
            else if L.IsDigit(words[0][0]) then "component_" + L.JoinWords(words)
            else L.JoinWords(words)
  {
    hide L.Words, L.JoinWords, L.Scanned, Collapsed, WithoutTail;
    CollapsedScanned(value);
    WithoutTailScanned(value);
    JoinNone();
  }

  // ----- the id of a group -----

  function BaseCount(groups: seq<Group>, base: string): nat {
    if groups == [] then 0
    else
      BaseCount(groups[..|groups| - 1], base) + if Sanitized(groups[|groups| - 1].key.path) == base then 1 else 0
  }

  /** The path alone when no other path makes the same id, otherwise with the owner before it. */
  function Candidate(groups: seq<Group>, i: nat): string
    requires i < |groups|
  {
    var base := Sanitized(groups[i].key.path);
    if BaseCount(groups, base) == 1 then base else Sanitized(groups[i].key.owner) + "_" + base
  }

  function Hashed(hash: Hash, groups: seq<Group>, i: nat): string
    requires i < |groups|
  {
    Candidate(groups, i) + "_" + L.Hex(hash(groups[i].key.owner + ":" + groups[i].key.path), 8)
  }

  /** One of the first groups has the id as its candidate, or has a candidate that repeats and with its hash is the
      id. */
  ghost predicate Taken(hash: Hash, groups: seq<Group>, n: nat, id: string)
    requires n <= |groups|
    decreases n, 0
  {
    exists j :: 0 <= j < n && (Candidate(groups, j) == id ||
                               (Repeats(hash, groups, j) && Hashed(hash, groups, j) == id))
  }

  /** The candidate of the group is taken by an earlier one. */
  ghost predicate Repeats(hash: Hash, groups: seq<Group>, i: nat)
    requires i < |groups|
    decreases i, 1
  {
    Taken(hash, groups, i, Candidate(groups, i))
  }

  /** The candidate, with the hash when it repeats. */
  ghost function IdOf(hash: Hash, groups: seq<Group>, i: nat): string
    requires i < |groups|
  {
    if Repeats(hash, groups, i) then Hashed(hash, groups, i) else Candidate(groups, i)
  }

  ghost predicate AssignedIds(hash: Hash, groups: seq<Group>, ids: seq<string>) {
    |ids| <= |groups| && forall i :: 0 <= i < |ids| ==> ids[i] == IdOf(hash, groups, i)
  }

  /** The ids in use are the candidates, and the hashed ones of those that repeat. */
  lemma {:induction false} UsedIds(hash: Hash, groups: seq<Group>, ids: seq<string>, id: string)
    requires AssignedIds(hash, groups, ids)
    ensures id in ids <==> Taken(hash, groups, |ids|, id)
    decreases |ids|
  {
    hide Candidate, Hashed, Repeats;
    if id in ids {
      var j :| 0 <= j < |ids| && ids[j] == id;
      assert ids[j] == IdOf(hash, groups, j);
    }
    if j :| 0 <= j < |ids| && (Candidate(groups, j) == id ||
                               (Repeats(hash, groups, j) && Hashed(hash, groups, j) == id))
    {
      assert ids[j] == IdOf(hash, groups, j);
      if ids[j] != id {
        RepeatsIsTaken(hash, groups, j);
        UsedIds(hash, groups, ids[..j], id);
        assert id in ids[..j];
      }
    }
  }

  lemma RepeatsIsTaken(hash: Hash, groups: seq<Group>, i: nat)
    requires i < |groups|
    ensures Repeats(hash, groups, i) <==> Taken(hash, groups, i, Candidate(groups, i))
  {
    hide Candidate, Hashed, Taken;
  }

  lemma {:induction false} NextRepeats(hash: Hash, groups: seq<Group>, ids: seq<string>)
    requires AssignedIds(hash, groups, ids) && |ids| < |groups|
    ensures Candidate(groups, |ids|) in ids <==> Repeats(hash, groups, |ids|)
    ensures AssignedIds(hash, groups, ids + [IdOf(hash, groups, |ids|)])
  {
    hide Candidate, Hashed, Taken, Repeats;
    RepeatsIsTaken(hash, groups, |ids|);
    UsedIds(hash, groups, ids, Candidate(groups, |ids|));
  }

  method CountBases(groups: seq<Group>) returns (counts: map<string, nat>)
    ensures forall base :: (if base in counts then counts[base] else 0) == BaseCount(groups, base)
  {
    counts := map[];
    for i := 0 to |groups|
      invariant forall base :: (if base in counts then counts[base] else 0) == BaseCount(groups[..i], base)
    {
      assert groups[..i + 1][..i] == groups[..i];
      var base := SanitizeId(groups[i].key.path);
      counts := counts[base := (if base in counts then counts[base] else 0) + 1];
    }
    assert groups[..|groups|] == groups;
  }

  /** The id of every group is the one the groups alone determine. */
  method AssignComponentIds(hash: Hash, groups: seq<Group>) returns (ids: seq<string>)
    ensures |ids| == |groups| && AssignedIds(hash, groups, ids)
  {
    hide BaseCount, Sanitized, L.Hex, Repeats;
    var counts := CountBases(groups);
    var used: set<string> := {};
    ids := [];
    for i := 0 to |groups|
      invariant |ids| == i && AssignedIds(hash, groups, ids)
      invariant used == set id | id in ids
    {
      hide AssignedIds;
      var key := groups[i].key;
      var base := SanitizeId(key.path);
      var candidate := base;
      if !(base in counts && counts[base] == 1) {
        var owner := SanitizeId(key.owner);
        candidate := owner + "_" + base;
      }
      assert candidate == Candidate(groups, i);
      NextRepeats(hash, groups, ids);
      if candidate in used {
        candidate := candidate + "_" + L.Hex(hash(key.owner + ":" + key.path), 8);
      }
      assert candidate == IdOf(hash, groups, i);
      used := used + {candidate};
      ids := ids + [candidate];
    }
  }

  // ----- when ids are distinct -----

  /** The hashed id of a group is no earlier candidate and no earlier hashed id. */
  ghost predicate HashIsNew(hash: Hash, groups: seq<Group>, i: nat)
    requires i < |groups|
  {
    forall j :: 0 <= j < i ==>
                  && Candidate(groups, j) != Hashed(hash, groups, i)
                  && (Repeats(hash, groups, j) ==> Hashed(hash, groups, j) != Hashed(hash, groups, i))
  }

  /** No two components have one id exactly when the hash of every group that repeats makes a new one. */
  lemma {:induction false} IdsDistinct(hash: Hash, groups: seq<Group>, ids: seq<string>)
    requires AssignedIds(hash, groups, ids)
    ensures NoDuplicates(ids) <==>
            forall i :: 0 <= i < |ids| && Repeats(hash, groups, i) ==> HashIsNew(hash, groups, i)
    decreases |ids|
  {
    hide Candidate, Hashed, Repeats, Taken, HashIsNew;
    if ids != [] {
      var n := |ids| - 1;
      IdsDistinct(hash, groups, ids[..n]);
      NoDuplicatesSnoc(ids[..n], ids[n]);
      assert ids == ids[..n] + [ids[n]];
      LastIsNew(hash, groups, ids);
    }
  }

  lemma {:induction false} LastIsNew(hash: Hash, groups: seq<Group>, ids: seq<string>)
    requires AssignedIds(hash, groups, ids) && ids != []
    ensures var n := |ids| - 1;
            ids[n] in ids[..n] <==> Repeats(hash, groups, n) && !HashIsNew(hash, groups, n)
  {
    hide Candidate, Hashed, Repeats;
    var n := |ids| - 1;
    UsedIds(hash, groups, ids[..n], ids[n]);
    RepeatsIsTaken(hash, groups, n);
  }

  // ----- groups of single modules -----

  function Bare(id: string): Module {
    Module(id, LegacyCpp, [], [], [])
  }

  function Singles(modules: seq<Module>, keyOf: Module -> GroupKey): (groups: seq<Group>)
    ensures |groups| == |modules|
  {
    seq(|modules|, i requires 0 <= i < |modules| => Group(keyOf(modules[i]), [modules[i]]))
  }

  lemma SinglesKey(modules: seq<Module>, keyOf: Module -> GroupKey, i: nat)
    requires i < |modules|
    ensures Singles(modules, keyOf)[i].key == keyOf(modules[i])
  {
  }

  /** Every module has a key of its own, and the keys are in order. */
  ghost predicate OwnKeys(modules: seq<Module>, keyOf: Module -> GroupKey) {
    forall i, j :: 0 <= i < j < |modules| ==>
      keyOf(modules[i]) != keyOf(modules[j]) && KeyLeq(keyOf(modules[i]), keyOf(modules[j]))
  }

  lemma {:induction false} NoneWith(modules: seq<Module>, keyOf: Module -> GroupKey, key: GroupKey)
    requires forall m :: m in modules ==> keyOf(m) != key
    ensures ModulesWith(modules, keyOf, key) == []
  {
    if modules != [] {
      NoneWith(modules[..|modules| - 1], keyOf, key);
    }
  }

  lemma {:induction false} OneWith(modules: seq<Module>, keyOf: Module -> GroupKey, i: nat)
    requires OwnKeys(modules, keyOf) && i < |modules|
    ensures ModulesWith(modules, keyOf, keyOf(modules[i])) == [modules[i]]
  {
    var n := |modules| - 1;
    var key := keyOf(modules[i]);
    if i < n {
      OneWith(modules[..n], keyOf, i);
    } else {
      NoneWith(modules[..n], keyOf, key);
    }
  }

  lemma SinglesAreGrouping(modules: seq<Module>, keyOf: Module -> GroupKey)
    requires OwnKeys(modules, keyOf)
    ensures IsGrouping(modules, keyOf, Singles(modules, keyOf))
  {
    var groups := Singles(modules, keyOf);
    forall i | 0 <= i < |groups|
      ensures groups[i].modules == Sort(ModulesWith(modules, keyOf, groups[i].key), IdLeq) != []
    {
      OneWith(modules, keyOf, i);
    }
    forall m | m in modules ensures keyOf(m) in Keys(groups) {
      var i :| 0 <= i < |modules| && modules[i] == m;
      assert Keys(groups)[i] == keyOf(m);
    }
  }

  lemma {:induction false} StringLeqPrefix(a: string, b: string)
    ensures StringLeq(a, a + b)
  {
    if a != "" {
      assert (a + b)[1..] == a[1..] + b;
      StringLeqPrefix(a[1..], b);
    }
  }

  lemma {:induction false} AllBases(groups: seq<Group>, base: string)
    requires forall i :: 0 <= i < |groups| ==> Sanitized(groups[i].key.path) == base
    ensures BaseCount(groups, base) == |groups|
  {
    if groups != [] {
      AllBases(groups[..|groups| - 1], base);
    }
  }

  lemma {:induction false} OneBase(groups: seq<Group>, i: nat)
    requires i < |groups|
    requires forall j :: 0 <= j < |groups| && j != i ==>
                           Sanitized(groups[j].key.path) != Sanitized(groups[i].key.path)
    ensures BaseCount(groups, Sanitized(groups[i].key.path)) == 1
  {
    hide Sanitized;
    var n := |groups| - 1;
    if i < n {
      OneBase(groups[..n], i);
    } else {
      NoBase(groups[..n], Sanitized(groups[i].key.path));
    }
  }

  lemma {:induction false} NoBase(groups: seq<Group>, base: string)
    requires forall j :: 0 <= j < |groups| ==> Sanitized(groups[j].key.path) != base
    ensures BaseCount(groups, base) == 0
  {
    hide Sanitized;
    if groups != [] {
      NoBase(groups[..|groups| - 1], base);
    }
  }

  /** With two groups of the same path there is more than one of its base. */
  lemma {:induction false} TwoBases(groups: seq<Group>, i: nat, j: nat)
    requires i < j < |groups| && Sanitized(groups[i].key.path) == Sanitized(groups[j].key.path)
    ensures BaseCount(groups, Sanitized(groups[i].key.path)) >= 2
  {
    hide Sanitized;
    var n, base := |groups| - 1, Sanitized(groups[i].key.path);
    if j < n {
      TwoBases(groups[..n], i, j);
    } else {
      SomeBase(groups[..n], i);
    }
  }

  lemma {:induction false} SomeBase(groups: seq<Group>, i: nat)
    requires i < |groups|
    ensures BaseCount(groups, Sanitized(groups[i].key.path)) >= 1
  {
    hide Sanitized;
    if i < |groups| - 1 {
      SomeBase(groups[..|groups| - 1], i);
    }
  }

  // ----- groups that share an id -----

  /** Groups with one candidate that repeats share an id exactly when their hashes are equal. */
  lemma SharedCandidate(hash: Hash, groups: seq<Group>, i: nat, j: nat)
    requires i < |groups| && j < |groups| && Candidate(groups, i) == Candidate(groups, j)
    requires Repeats(hash, groups, i) && Repeats(hash, groups, j)
    ensures IdOf(hash, groups, i) == IdOf(hash, groups, j) <==>
            hash(groups[i].key.owner + ":" + groups[i].key.path) == hash(groups[j].key.owner + ":" + groups[j].key.path)
  {
    hide Candidate, Repeats, L.Hex;
    var a := hash(groups[i].key.owner + ":" + groups[i].key.path);
    var b := hash(groups[j].key.owner + ":" + groups[j].key.path);
    var start := Candidate(groups, i) + "_";
    if IdOf(hash, groups, i) == IdOf(hash, groups, j) {
      assert (start + L.Hex(a, 8))[|start|..] == L.Hex(a, 8) && (start + L.Hex(b, 8))[|start|..] == L.Hex(b, 8);
      L.EightDigits();
      L.HexInjective(a, b, 8);
    }
  }

  /** `a` with exclamation marks: all sanitised to `a`. */
  function Owner(n: nat): (s: string)
    ensures |s| == n + 1
  {
    if n == 0 then "a" else Owner(n - 1) + "!"
  }

  lemma {:induction false} OwnerCollapsed(n: nat)
    ensures Collapsed(Owner(n)) == if n == 0 then "a" else "a_"
  {
    if n == 0 {
      assert "a"[..0] == "";
    } else {
      OwnerCollapsed(n - 1);
      assert Owner(n)[..n] == Owner(n - 1);
    }
  }

  lemma OwnerSanitized(n: nat)
    ensures Sanitized(Owner(n)) == "a"
  {
    OwnerCollapsed(n);
    assert "a_"[..1] == "a";
  }

  lemma {:induction false} OwnersSorted(i: nat, j: nat)
    requires i <= j
    ensures StringLeq(Owner(i), Owner(j))
    decreases j
  {
    if i == j {
      assert Owner(i) + "" == Owner(i);
      StringLeqPrefix(Owner(i), "");
    } else {
      OwnersSorted(i, j - 1);
      StringLeqPrefix(Owner(j - 1), "!");
      StringLeqTransitive(Owner(i), Owner(j - 1), Owner(j));
    }
  }

  /** Modules of one path and owners that are sanitised alike. */
  function Crowd(n: nat): (modules: seq<Module>)
    ensures |modules| == n
  {
    seq(n, i requires 0 <= i < n => Bare(Owner(i)))
  }

  function OnePath(m: Module): GroupKey {
    GroupKey(m.id, "p")
  }

  lemma CrowdKey(n: nat, i: nat)
    requires i < n
    ensures Singles(Crowd(n), OnePath)[i].key == GroupKey(Owner(i), "p")
  {
    hide Owner;
    assert Crowd(n)[i] == Bare(Owner(i));
    SinglesKey(Crowd(n), OnePath, i);
  }

  lemma CrowdGrouping(n: nat)
    ensures IsGrouping(Crowd(n), OnePath, Singles(Crowd(n), OnePath))
  {
    hide IsGrouping;
    forall i, j | 0 <= i < j < n
      ensures OnePath(Crowd(n)[i]) != OnePath(Crowd(n)[j]) && KeyLeq(OnePath(Crowd(n)[i]), OnePath(Crowd(n)[j]))
    {
      OwnersSorted(i, j);
      assert |Owner(i)| != |Owner(j)|;
    }
    SinglesAreGrouping(Crowd(n), OnePath);
  }

  lemma CrowdCandidate(n: nat, i: nat)
    requires 2 <= n && i < n
    ensures Candidate(Singles(Crowd(n), OnePath), i) == "a_p"
  {
    hide BaseCount, Sanitized;
    var groups := Singles(Crowd(n), OnePath);
    assert IsComponentId("p");
    SanitizedKeepsIds("p");
    forall j | 0 <= j < n ensures groups[j].key.path == "p" {
      CrowdKey(n, j);
    }
    AllBases(groups, "p");
    OwnerSanitized(i);
    CrowdKey(n, i);
    assert "a" + "_" + "p" == "a_p";
  }

  lemma CrowdRepeats(hash: Hash, n: nat, i: nat)
    requires 1 <= i < n
    ensures Repeats(hash, Singles(Crowd(n), OnePath), i)
  {
    hide Candidate, Hashed;
    CrowdCandidate(n, 0);
    CrowdCandidate(n, i);
    assert Taken(hash, Singles(Crowd(n), OnePath), i, "a_p");
  }

  lemma {:induction false} ImageSize(f: int -> int, n: nat)
    requires forall i, j :: 0 <= i < j < n ==> f(i) != f(j)
    ensures |set i | 0 <= i < n :: f(i)| == n
  {
    if n != 0 {
      ImageSize(f, n - 1);
      assert (set i | 0 <= i < n :: f(i)) == (set i | 0 <= i < n - 1 :: f(i)) + {f(n - 1)};
    }
  }

  /** Among more numbers than there are values, two have the same value. */
  lemma Pigeonhole(f: int -> int, n: nat)
    requires forall i :: 0 <= i <= n ==> 0 <= f(i) < n
    ensures exists i, j :: 0 <= i < j <= n && f(i) == f(j)
  {
    if forall i, j :: 0 <= i < j <= n ==> f(i) != f(j) {
      ImageSize(f, n + 1);
      SubsetSize(set i | 0 <= i < n + 1 :: f(i), Below(n));
      assert false;
    }
  }

  function OwnerHash(hash: Hash, i: int): L.Hash32 {
    if i < 0 then 0 else hash(Owner(i + 1) + ":" + "p")
  }

  lemma CrowdCollides(hash: Hash, n: nat, i: nat, j: nat)
    requires i < j && j + 1 < n && OwnerHash(hash, i) == OwnerHash(hash, j)
    ensures var groups := Singles(Crowd(n), OnePath);
            && groups[i + 1].key.path == groups[j + 1].key.path && groups[i + 1].key.owner != groups[j + 1].key.owner
            && IdOf(hash, groups, i + 1) == IdOf(hash, groups, j + 1)
  {
    hide IdOf, Candidate, Repeats, Crowd, Singles, Owner;
    CrowdKey(n, i + 1);
    CrowdKey(n, j + 1);
    assert |Owner(i + 1)| != |Owner(j + 1)|;
    CrowdCandidate(n, i + 1);
    CrowdCandidate(n, j + 1);
    CrowdRepeats(hash, n, i + 1);
    CrowdRepeats(hash, n, j + 1);
    SharedCandidate(hash, Singles(Crowd(n), OnePath), i + 1, j + 1);
  }

  /** Two groups of one path and different owners have one id. */
  ghost predicate PathShared(hash: Hash, groups: seq<Group>) {
    exists i, j :: 0 <= i < j < |groups| && groups[i].key.path == groups[j].key.path &&
                   groups[i].key.owner != groups[j].key.owner && IdOf(hash, groups, i) == IdOf(hash, groups, j)
  }

  /** Whatever the hash, among enough owners of one path two components have one id. */
  lemma OwnersCollide(hash: Hash, n: nat)
    requires n >= 0x1_0000_0002
    ensures IsGrouping(Crowd(n), OnePath, Singles(Crowd(n), OnePath))
    ensures PathShared(hash, Singles(Crowd(n), OnePath))
  {
    hide IsGrouping, IdOf, Crowd, Singles, OwnerHash;
    CrowdGrouping(n);
    Pigeonhole(i => OwnerHash(hash, i), 0x1_0000_0000);
    var i, j :| 0 <= i < j <= 0x1_0000_0000 && OwnerHash(hash, i) == OwnerHash(hash, j);
    CrowdCollides(hash, n, i, j);
    assert j + 1 < |Singles(Crowd(n), OnePath)|;
  }

  /** A path that looks like the hashed id of another group. */
  function TakenPath(hash: Hash): string {
    "a_b" + "_" + L.Hex(hash("a:b"), 8)
  }

  const FOUR: seq<Module> := [Bare("w"), Bare("x"), Bare("y"), Bare("z")]

  function FourKeys(hash: Hash): Module -> GroupKey {
    (m: Module) =>
      if m.id == "w" then GroupKey("0", "a_b")
      else if m.id == "x" then GroupKey("0", TakenPath(hash))
      else if m.id == "y" then GroupKey("a", "b")
      else GroupKey("c", "b")
  }

  lemma TakenPathIsId(hash: Hash)
    ensures IsComponentId("a_b") && IsComponentId("b") && IsComponentId("a") && IsComponentId(TakenPath(hash))
  {
    assert "a" + "_" + "b" == "a_b";
    JoinedIsId("a", "b");
    HexIsTail(hash("a:b"));
    JoinedIsId("a_b", L.Hex(hash("a:b"), 8));
  }

  lemma {:induction false} HexPlain(n: nat, width: nat)
    ensures '_' !in L.Hex(n, width)
  {
    if width != 0 {
      HexPlain(n / 16, width - 1);
    }
  }

  lemma HexIsTail(n: nat)
    ensures IsTail(L.Hex(n, 8))
  {
    hide L.Hex;
    HexPlain(n, 8);
  }

  lemma FourGrouping(hash: Hash)
    ensures IsGrouping(FOUR, FourKeys(hash), Singles(FOUR, FourKeys(hash)))
  {
    hide IsGrouping, L.Hex;
    var keyOf := FourKeys(hash);
    StringLeqPrefix("a_b", "_" + L.Hex(hash("a:b"), 8));
    assert TakenPath(hash) == "a_b" + ("_" + L.Hex(hash("a:b"), 8));
    assert |TakenPath(hash)| == 12;
    forall i, j | 0 <= i < j < |FOUR|
      ensures keyOf(FOUR[i]) != keyOf(FOUR[j]) && KeyLeq(keyOf(FOUR[i]), keyOf(FOUR[j]))
    {
      assert "0" != "a" && "0" != "c" && "a" != "c" && "a_b" != TakenPath(hash);
    }
    SinglesAreGrouping(FOUR, keyOf);
  }

  lemma FourCandidates(hash: Hash)
    ensures var groups := Singles(FOUR, FourKeys(hash));
            Candidate(groups, 0) == "a_b" && Candidate(groups, 1) == TakenPath(hash) && Candidate(groups, 2) == "a_b"
  {
    hide BaseCount, Sanitized, L.Hex;
    var groups := Singles(FOUR, FourKeys(hash));
    TakenPathIsId(hash);
    SanitizedKeepsIds("a_b");
    SanitizedKeepsIds("b");
    SanitizedKeepsIds("a");
    SanitizedKeepsIds(TakenPath(hash));
    assert |TakenPath(hash)| == 12 && |"a_b"| == 3 && |"b"| == 1;
    OneBase(groups, 0);
    OneBase(groups, 1);
    TwoBases(groups, 2, 3);
    assert "a" + "_" + "b" == "a_b";
  }

  /** Whatever the hash, two of four components have one id. */
  lemma IdsCollide(hash: Hash)
    ensures var groups := Singles(FOUR, FourKeys(hash));
            && IsGrouping(FOUR, FourKeys(hash), groups)
            && !Repeats(hash, groups, 1) && IdOf(hash, groups, 1) == IdOf(hash, groups, 2)
  {
    hide IsGrouping, Candidate, L.Hex;
    var groups := Singles(FOUR, FourKeys(hash));
    FourGrouping(hash);
    FourCandidates(hash);
    assert "a" + ":" + "b" == "a:b" && |TakenPath(hash)| == 12;
    assert !Taken(hash, groups, 0, "a_b") && !Repeats(hash, groups, 0);
    assert !Taken(hash, groups, 1, TakenPath(hash));
    assert Taken(hash, groups, 2, "a_b");
    assert Hashed(hash, groups, 2) == TakenPath(hash);
  }
}
