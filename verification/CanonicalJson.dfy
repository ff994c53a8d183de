/** The canonical text of a JSON value: no whitespace, object members in the order of their keys. */
module CanonicalJson {
  import opened Wrappers
  import opened Ordering
  import EvidenceModel

  /** A number is its decimal text; members are listed in the order the map yields them. */
  datatype Value =
    | Null
    | Bool(b: bool)
    | Number(digits: string)
    | Text(text: string)
    | Array(elements: seq<Value>)
    | Object(members: seq<Member>)

  datatype Member = Member(key: string, value: Value)

  // ----- equality, with objects as maps -----

  ghost predicate Same(a: Value, b: Value)
    decreases a
  {
    match a
    case Array(x) =>
      b.Array? && |x| == |b.elements| && forall i :: 0 <= i < |x| ==> Same(x[i], b.elements[i])
    case Object(x) =>
      && b.Object? && SameKeys(x, b.members)
      && forall i, j :: 0 <= i < |x| && 0 <= j < |b.members| && x[i].key == b.members[j].key ==>
                          Same(x[i].value, b.members[j].value)
    case _ => a == b
  }

  ghost predicate HasKey(members: seq<Member>, key: string) {
    exists i :: 0 <= i < |members| && members[i].key == key
  }

  ghost predicate SameKeys(x: seq<Member>, y: seq<Member>) {
    forall key :: HasKey(x, key) <==> HasKey(y, key)
  }

  predicate DistinctKeys(members: seq<Member>) {
    forall i, j :: 0 <= i < j < |members| ==> members[i].key != members[j].key
  }

  predicate IsNumberChar(c: char) {
    '0' <= c <= '9' || c == '-' || c == '+' || c == '.' || c == 'e' || c == 'E'
  }

  predicate IsNumber(s: string) {
    s != "" && ('0' <= s[0] <= '9' || s[0] == '-') && forall i :: 0 <= i < |s| ==> IsNumberChar(s[i])
  }

  /** Numbers are numbers and no object has a key twice. */
  predicate Proper(v: Value)
    decreases v
  {
    match v
    case Number(digits) => IsNumber(digits)
    case Array(elements) => forall i :: 0 <= i < |elements| ==> Proper(elements[i])
    case Object(members) => DistinctKeys(members) && forall i :: 0 <= i < |members| ==> Proper(members[i].value)
    case _ => true
  }

  // ----- members in key order -----

  predicate KeyLeq(a: Member, b: Member) {
    StringLeq(a.key, b.key)
  }

  lemma KeyOrder()
    ensures TotalPreorder(KeyLeq)
  {
    forall x: Member, y: Member ensures KeyLeq(x, y) || KeyLeq(y, x) {
      StringLeqTotal(x.key, y.key);
    }
    forall x: Member, y: Member, z: Member | KeyLeq(x, y) && KeyLeq(y, z) ensures KeyLeq(x, z) {
      StringLeqTransitive(x.key, y.key, z.key);
    }
  }

  /** The value with the members of every object sorted. */
  function Normal(v: Value): Value
    decreases v
  {
    match v
    case Array(elements) => Array(NormalAll(elements))
    case Object(members) => Object(Sort(NormalMembers(members), KeyLeq))
    case _ => v
  }

  function NormalAll(elements: seq<Value>): (r: seq<Value>)
    ensures |r| == |elements|
    ensures forall i :: 0 <= i < |r| ==> r[i] == Normal(elements[i])
    decreases elements
  {
    if elements == [] then [] else [Normal(elements[0])] + NormalAll(elements[1..])
  }

  function NormalMembers(members: seq<Member>): (r: seq<Member>)
    ensures |r| == |members|
    ensures forall i :: 0 <= i < |r| ==> r[i] == Member(members[i].key, Normal(members[i].value))
    decreases members
  {
    if members == [] then []
    else [Member(members[0].key, Normal(members[0].value))] + NormalMembers(members[1..])
  }

  // ----- text -----

  /** Characters stand for themselves except quotes, backslashes and controls, which have their short form where there
      is one and otherwise four hexadecimal digits. */
  function Escape(c: char): (r: string)
    ensures |r| >= 1
    ensures r == [c] <==> c as int >= 32 && c != '"' && c != '\\'
    ensures |r| == 2 <==> c == '"' || c == '\\' || c as int in {8, 9, 10, 12, 13}
    ensures |r| > 2 ==> |r| == 6 && r[..4] == "\\u00"
  {
    if c == '"' then "\\\""
    else if c == '\\' then "\\\\"
    else if c as int == 8 then "\\b"
    else if c as int == 12 then "\\f"
    else if c == '\n' then "\\n"
    else if c == '\r' then "\\r"
    else if c == '\t' then "\\t"
    else if (c as int) < 32 then "\\u00" +
        [EvidenceModel.HexDigit(c as int / 16), EvidenceModel.HexDigit(c as int % 16)]
    else [c]
  }

  function EscapeAll(s: string): string {
    if s == "" then "" else Escape(s[0]) + EscapeAll(s[1..])
  }

  function Quote(s: string): string {
    "\"" + EscapeAll(s) + "\""
  }

  function Joined(texts: seq<string>): string {
    if texts == [] then "" else if |texts| == 1 then texts[0] else texts[0] + "," + Joined(texts[1..])
  }

  function Print(v: Value): string
    decreases v
  {
    match v
    case Null => "null"
    case Bool(b) => if b then "true" else "false"
    case Number(digits) => digits
    case Text(text) => Quote(text)
    case Array(elements) => "[" + Joined(PrintAll(elements)) + "]"
    case Object(members) => "{" + Joined(PrintMembers(members)) + "}"
  }

  function PrintAll(elements: seq<Value>): (r: seq<string>)
    ensures |r| == |elements|
    ensures forall i :: 0 <= i < |r| ==> r[i] == Print(elements[i])
    decreases elements
  {
    if elements == [] then [] else [Print(elements[0])] + PrintAll(elements[1..])
  }

  function PrintMember(m: Member): string
    decreases m
  {
    Quote(m.key) + ":" + Print(m.value)
  }

  function PrintMembers(members: seq<Member>): (r: seq<string>)
    ensures |r| == |members|
    ensures forall i :: 0 <= i < |r| ==> r[i] == PrintMember(members[i])
    decreases members
  {
    if members == [] then [] else [PrintMember(members[0])] + PrintMembers(members[1..])
  }

  /** The canonical text. */
  function Canonical(v: Value): string {
    Print(Normal(v))
  }

  // ----- writing -----

  lemma {:induction false} JoinedSnoc(texts: seq<string>, text: string)
    ensures Joined(texts + [text]) == Joined(texts) + (if texts == [] then "" else ",") + text
  {
    var all := texts + [text];
    if |texts| >= 1 {
      assert all[1..] == texts[1..] + [text];
      JoinedSnoc(texts[1..], text);
      if |texts| >= 2 {
        Associate(texts[0] + ",", Joined(texts[1..]) + ",", text);
        Associate(texts[0] + ",", Joined(texts[1..]), ",");
      } else {
        assert texts[1..] == [];
        assert Joined([text]) == text;
      }
    } else {
      assert all == [text];
    }
  }

  lemma {:induction false} SortNormalMembers(members: seq<Member>)
    ensures Sort(NormalMembers(members), KeyLeq) == NormalMembers(Sort(members, KeyLeq))
  {
    if members != [] {
      SortNormalMembers(members[1..]);
      InsertNormalMember(members[0], Sort(members[1..], KeyLeq));
    }
  }

  lemma {:induction false} InsertNormalMember(m: Member, members: seq<Member>)
    ensures Insert(Member(m.key, Normal(m.value)), NormalMembers(members), KeyLeq) ==
            NormalMembers(Insert(m, members, KeyLeq))
  {
    if members != [] {
      InsertNormalMember(m, members[1..]);
    }
  }

  function ElementsText(elements: seq<Value>): string {
    Joined(PrintAll(NormalAll(elements)))
  }

  function MembersText(members: seq<Member>): string {
    Joined(PrintMembers(NormalMembers(members)))
  }

  /** A separator belongs behind everything but the start. */
  function Separated(text: string, i: nat): string {
    if i > 0 then text + "," else text
  }

  lemma JoinedStep(start: string, texts: seq<string>, text: string)
    ensures start + Joined(texts + [text]) == Separated(start + Joined(texts), |texts|) + text
  {
    JoinedSnoc(texts, text);
    if texts == [] {
      assert Joined(texts) == "" && start + "" == start;
      assert Joined(texts) + "" + text == text;
    } else {
      Associate(start, Joined(texts) + ",", text);
      Associate(start, Joined(texts), ",");
    }
  }

  lemma {:induction false} ElementTexts(elements: seq<Value>, i: nat)
    requires i < |elements|
    ensures PrintAll(NormalAll(elements[..i + 1])) == PrintAll(NormalAll(elements[..i])) + [Canonical(elements[i])]
  {
    assert elements[..i + 1] == elements[..i] + [elements[i]];
    NormalAllSnoc(elements[..i], elements[i]);
    PrintAllSnoc(NormalAll(elements[..i]), Normal(elements[i]));
  }

  lemma {:induction false} NormalAllSnoc(elements: seq<Value>, v: Value)
    ensures NormalAll(elements + [v]) == NormalAll(elements) + [Normal(v)]
  {
  }

  lemma {:induction false} PrintAllSnoc(elements: seq<Value>, v: Value)
    ensures PrintAll(elements + [v]) == PrintAll(elements) + [Print(v)]
  {
  }

  lemma {:induction false} ElementStep(start: string, elements: seq<Value>, i: nat)
    requires i < |elements|
    ensures start + ElementsText(elements[..i + 1]) ==
            Separated(start + ElementsText(elements[..i]), i) + Canonical(elements[i])
  {
    ElementTexts(elements, i);
    JoinedStep(start, PrintAll(NormalAll(elements[..i])), Canonical(elements[i]));
  }

  lemma {:induction false} NormalMembersSnoc(members: seq<Member>, m: Member)
    ensures NormalMembers(members + [m]) == NormalMembers(members) + [Member(m.key, Normal(m.value))]
  {
  }

  lemma {:induction false} PrintMembersSnoc(members: seq<Member>, m: Member)
    ensures PrintMembers(members + [m]) == PrintMembers(members) + [PrintMember(m)]
  {
  }

  lemma {:induction false} MemberTexts(members: seq<Member>, i: nat)
    requires i < |members|
    ensures PrintMembers(NormalMembers(members[..i + 1])) ==
            PrintMembers(NormalMembers(members[..i])) + [Quote(members[i].key) + ":" + Canonical(members[i].value)]
  {
    assert members[..i + 1] == members[..i] + [members[i]];
    NormalMembersSnoc(members[..i], members[i]);
    PrintMembersSnoc(NormalMembers(members[..i]), Member(members[i].key, Normal(members[i].value)));
  }

  lemma {:induction false} MemberStep(start: string, members: seq<Member>, i: nat)
    requires i < |members|
    ensures start + MembersText(members[..i + 1]) ==
            Separated(start + MembersText(members[..i]), i) + Quote(members[i].key) + ":" + Canonical(members[i].value)
  {
    var texts, text := PrintMembers(NormalMembers(members[..i])),
        Quote(members[i].key) + ":" + Canonical(members[i].value);
    MemberTexts(members, i);
    JoinedStep(start, texts, text);
    var before := Separated(start + MembersText(members[..i]), i);
    Associate(before, Quote(members[i].key) + ":", Canonical(members[i].value));
    Associate(before, Quote(members[i].key), ":");
  }

  lemma EscapeSnoc(s: string, i: nat)
    requires i < |s|
    ensures EscapeAll(s[..i + 1]) == EscapeAll(s[..i]) + Escape(s[i])
  {
    EscapeAppend(s[..i], [s[i]]);
    assert s[..i + 1] == s[..i] + [s[i]];
    assert EscapeAll([s[i]]) == Escape(s[i]) + "";
  }

  lemma {:induction false} EscapeAppend(a: string, b: string)
    ensures EscapeAll(a + b) == EscapeAll(a) + EscapeAll(b)
  {
    if a == "" {
      assert a + b == b;
    } else {
      assert (a + b)[1..] == a[1..] + b;
      EscapeAppend(a[1..], b);
    }
  }

  lemma CanonicalArray(start: string, elements: seq<Value>)
    ensures start + Canonical(Array(elements)) == start + "[" + ElementsText(elements) + "]"
  {
    Associate(start, "[" + ElementsText(elements), "]");
    Associate(start, "[", ElementsText(elements));
  }

  lemma CanonicalObject(start: string, members: seq<Member>)
    ensures start + Canonical(Object(members)) == start + "{" + MembersText(Sort(members, KeyLeq)) + "}"
  {
    SortNormalMembers(members);
    var text := MembersText(Sort(members, KeyLeq));
    Associate(start, "{" + text, "}");
    Associate(start, "{", text);
  }

  class JsonWriter {
    var output: string

    constructor ()
      ensures output == ""
    {
      output := "";
    }

    method WriteText(text: string)
      modifies this
      ensures output == old(output) + Quote(text)
    {
      hide Escape;
      output := output + "\"";
      for i := 0 to |text|
        invariant output == old(output) + "\"" + EscapeAll(text[..i])
      {
        hide EscapeAll;
        EscapeSnoc(text, i);
        output := output + Escape(text[i]);
      }
      hide EscapeAll;
      assert text[..|text|] == text;
      output := output + "\"";
    }

    method WriteElements(elements: seq<Value>)
      modifies this
      ensures output == old(output) + ElementsText(elements)
      decreases elements, 0
    {
      for i := 0 to |elements|
        invariant output == old(output) + ElementsText(elements[..i])
      {
        ElementStep(old(output), elements, i);
        if i > 0 {
          output := output + ",";
        }
        Write(elements[i]);
      }
      assert elements[..|elements|] == elements;
    }

    method WriteMembers(members: seq<Member>, ghost whole: Value)
      requires whole.Object? && forall m :: m in members ==> m in whole.members
      modifies this
      ensures output == old(output) + MembersText(members)
      decreases whole, 0
    {
      for i := 0 to |members|
        invariant output == old(output) + MembersText(members[..i])
      {
        MemberStep(old(output), members, i);
        if i > 0 {
          output := output + ",";
        }
        WriteText(members[i].key);
        output := output + ":";
        assert members[i] in whole.members;
        Write(members[i].value);
      }
      assert members[..|members|] == members;
    }

    method Write(value: Value)
      modifies this
      ensures output == old(output) + Canonical(value)
      decreases value, 1
    {
      match value {
        case Null => output := output + "null";
        case Bool(b) => output := output + if b then "true" else "false";
        case Number(digits) => output := output + digits;
        case Text(text) => WriteText(text);
        case Array(elements) =>
          output := output + "[";
          WriteElements(elements);
          output := output + "]";
          CanonicalArray(old(output), elements);
        case Object(members) =>
          output := output + "{";
          var entries := Sort(members, KeyLeq);
          KeyOrder();
          SortCorrect(members, KeyLeq);
          WriteMembers(entries, value);
          output := output + "}";
          CanonicalObject(old(output), members);
      }
    }
  }

  method CanonicalText(value: Value) returns (text: string)
    ensures text == Canonical(value)
  {
    var writer := new JsonWriter();
    writer.Write(value);
    text := writer.output;
  }
}
