/** Reading canonical JSON back: equal texts mean equal values. */
module JsonReading {
  import opened Wrappers
  import opened Ordering
  import opened CanonicalJson
  import EvidenceModel

  // ----- strings -----

  function HexValue(c: char): Option<nat> {
    if '0' <= c <= '9' then Some(c as int - '0' as int)
    else if 'a' <= c <= 'f' then Some(c as int - 'a' as int + 10)
    else None
  }

  /** One character of a string, unescaped, and the text behind it. */
  function ReadChar(s: string): (r: Option<(char, string)>)
    requires s != ""
    ensures r.Some? ==> |r.value.1| < |s|
  {
    if s[0] != '\\' then Some((s[0], s[1..]))
    else if |s| < 2 then None
    else
      match s[1]
      case '"' => Some(('"', s[2..]))
      case '\\' => Some(('\\', s[2..]))
      case 'b' => Some((8 as char, s[2..]))
      case 'f' => Some((12 as char, s[2..]))
      case 'n' => Some(('\n', s[2..]))
      case 'r' => Some(('\r', s[2..]))
      case 't' => Some(('\t', s[2..]))
      case 'u' => ReadControl(s)
      case _ => None
  }

  function ReadControl(s: string): (r: Option<(char, string)>)
    ensures r.Some? ==> |r.value.1| < |s|
  {
    if |s| < 6 || s[2] != '0' || s[3] != '0' || HexValue(s[4]).None? || HexValue(s[5]).None? then None
    else Some(((HexValue(s[4]).value * 16 + HexValue(s[5]).value) as char, s[6..]))
  }

  /** The rest of a string up to its closing quote. */
  function ReadText(s: string): (r: Option<(string, string)>)
    ensures r.Some? ==> |r.value.1| < |s|
    decreases |s|
  {
    if s == "" then None
    else if s[0] == '"' then Some(("", s[1..]))
    else
      match ReadChar(s)
      case None => None
      case Some((c, rest)) =>
        match ReadText(rest)
        case None => None
        case Some((text, behind)) => Some(([c] + text, behind))
  }

  lemma HexRoundTrip(n: nat)
    requires n < 16
    ensures HexValue(EvidenceModel.HexDigit(n)) == Some(n)
  {
  }

  lemma ReadControlEscape(c: char, rest: string)
    requires (c as int) < 32
    ensures ReadControl("\\u00" + [EvidenceModel.HexDigit(c as int / 16), EvidenceModel.HexDigit(c as int % 16)] +
                        rest) ==
            Some((c, rest))
  {
    var high, low := c as int / 16, c as int % 16;
    var s := "\\u00" + [EvidenceModel.HexDigit(high), EvidenceModel.HexDigit(low)] + rest;
    HexRoundTrip(high);
    HexRoundTrip(low);
    assert s[2] == '0' && s[3] == '0' && s[4] == EvidenceModel.HexDigit(high) && s[5] == EvidenceModel.HexDigit(low);
    assert s[6..] == rest;
  }

  lemma ReadEscape(c: char, rest: string)
    ensures Escape(c)[0] != '"'
    ensures ReadChar(Escape(c) + rest) == Some((c, rest))
  {
    var s := Escape(c) + rest;
    if c == '"' || c == '\\' {
      assert s[2..] == rest;
    } else if c == '\n' || c == '\r' || c == '\t' || c as int == 8 || c as int == 12 {
      assert s[2..] == rest;
    } else if (c as int) < 32 {
      ReadControlEscape(c, rest);
      assert s[0] == '\\' && s[1] == 'u';
    } else {
      assert s[1..] == rest;
    }
  }

  lemma ReadTextStep(s: string, c: char, u: string, text: string, behind: string)
    requires s != "" && s[0] != '"' && ReadChar(s) == Some((c, u)) && ReadText(u) == Some((text, behind))
    ensures ReadText(s) == Some(([c] + text, behind))
  {
  }

  lemma EscapedSplit(text: string, rest: string)
    requires text != ""
    ensures EscapeAll(text) + "\"" + rest == Escape(text[0]) + (EscapeAll(text[1..]) + "\"" + rest)
  {
    Associate(Escape(text[0]), EscapeAll(text[1..]) + "\"", rest);
    Associate(Escape(text[0]), EscapeAll(text[1..]), "\"");
  }

  lemma {:induction false} ReadQuoted(text: string, rest: string)
    ensures ReadText(EscapeAll(text) + "\"" + rest) == Some((text, rest))
  {
    if text == "" {
      hide ReadChar, Escape;
      var s := "\"" + rest;
      assert EscapeAll("") + "\"" == "\"" && s[1..] == rest;
    } else {
      hide ReadText, ReadChar, EscapeAll, Escape;
      var u := EscapeAll(text[1..]) + "\"" + rest;
      ReadQuoted(text[1..], rest);
      ReadEscape(text[0], u);
      EscapedSplit(text, rest);
      ReadTextStep(Escape(text[0]) + u, text[0], u, text[1..], rest);
      assert text == [text[0]] + text[1..];
    }
  }

  // ----- values -----

  function NumberSpan(s: string): (n: nat)
    ensures n <= |s| && (forall i :: 0 <= i < n ==> IsNumberChar(s[i])) && (n < |s| ==> !IsNumberChar(s[n]))
  {
    if s != "" && IsNumberChar(s[0]) then 1 + NumberSpan(s[1..]) else 0
  }

  function ReadWord(s: string, word: string, v: Value): (r: Option<(Value, string)>)
    requires word != ""
    ensures r.Some? ==> |r.value.1| < |s|
  {
    if word <= s then Some((v, s[|word|..])) else None
  }

  function ReadNumber(s: string): (r: Option<(Value, string)>)
    ensures r.Some? ==> |r.value.1| < |s|
  {
    var n := NumberSpan(s);
    if n == 0 then None else Some((Number(s[..n]), s[n..]))
  }

  function ReadValue(s: string): (r: Option<(Value, string)>)
    ensures r.Some? ==> |r.value.1| < |s|
    decreases |s|, 0
  {
    if s == "" then None
    else
      match s[0]
      case 'n' => ReadWord(s, "null", Null)
      case 't' => ReadWord(s, "true", Bool(true))
      case 'f' => ReadWord(s, "false", Bool(false))
      case '"' =>
        (match ReadText(s[1..])
         case Some((text, rest)) => Some((Text(text), rest))
         case None => None)
      case '[' =>
        if |s| >= 2 && s[1] == ']' then Some((Array([]), s[2..]))
        else
          (match ReadElements(s[1..])
           case Some((elements, rest)) => Some((Array(elements), rest))
           case None => None)
      case '{' =>
        if |s| >= 2 && s[1] == '}' then Some((Object([]), s[2..]))
        else
          (match ReadMembers(s[1..])
           case Some((members, rest)) => Some((Object(members), rest))
           case None => None)
      case _ => ReadNumber(s)
  }

  /** The elements up to the closing bracket. */
  function ReadElements(s: string): (r: Option<(seq<Value>, string)>)
    ensures r.Some? ==> |r.value.1| < |s|
    decreases |s|, 1
  {
    match ReadValue(s)
    case None => None
    case Some((v, rest)) =>
      if rest != "" && rest[0] == ']' then Some(([v], rest[1..]))
      else if rest != "" && rest[0] == ',' then
        (match ReadElements(rest[1..])
         case Some((vs, behind)) => Some(([v] + vs, behind))
         case None => None)
      else None
  }

  function ReadMember(s: string): (r: Option<(Member, string)>)
    ensures r.Some? ==> |r.value.1| < |s|
    decreases |s|, 1
  {
    if s == "" || s[0] != '"' then None
    else
      match ReadText(s[1..])
      case None => None
      case Some((key, rest)) =>
        if rest == "" || rest[0] != ':' then None
        else
          match ReadValue(rest[1..])
          case Some((v, behind)) => Some((Member(key, v), behind))
          case None => None
  }

  /** The members up to the closing brace. */
  function ReadMembers(s: string): (r: Option<(seq<Member>, string)>)
    ensures r.Some? ==> |r.value.1| < |s|
    decreases |s|, 2
  {
    match ReadMember(s)
    case None => None
    case Some((m, rest)) =>
      if rest != "" && rest[0] == '}' then Some(([m], rest[1..]))
      else if rest != "" && rest[0] == ',' then
        (match ReadMembers(rest[1..])
         case Some((ms, behind)) => Some(([m] + ms, behind))
         case None => None)
      else None
  }

  /** The text does not go on like a number. */
  predicate EndsNumber(rest: string) {
    rest == "" || !IsNumberChar(rest[0])
  }

  lemma {:induction false} NumberSpanExact(digits: string, rest: string)
    requires EndsNumber(rest) && forall i :: 0 <= i < |digits| ==> IsNumberChar(digits[i])
    ensures NumberSpan(digits + rest) == |digits|
  {
    if digits == "" {
      assert digits + rest == rest;
    } else {
      assert (digits + rest)[1..] == digits[1..] + rest;
      NumberSpanExact(digits[1..], rest);
    }
  }

  lemma ReadPrintedNumber(digits: string, rest: string)
    requires IsNumber(digits) && EndsNumber(rest)
    ensures ReadValue(digits + rest) == Some((Number(digits), rest))
  {
    var s := digits + rest;
    NumberSpanExact(digits, rest);
    assert s[0] == digits[0] && s[..|digits|] == digits && s[|digits|..] == rest;
  }

  lemma ReadPrintedWord(word: string, v: Value, rest: string)
    requires word != ""
    ensures ReadWord(word + rest, word, v) == Some((v, rest))
  {
    var s := word + rest;
    assert s[|word|..] == rest;
  }

  lemma ReadPrintedText(text: string, rest: string)
    ensures ReadValue(Quote(text) + rest) == Some((Text(text), rest))
  {
    var s := Quote(text) + rest;
    assert s[0] == '"' && s[1..] == EscapeAll(text) + "\"" + rest;
    ReadQuoted(text, rest);
  }

  lemma {:induction false} ReadPrinted(v: Value, rest: string)
    requires Proper(v) && EndsNumber(rest)
    ensures ReadValue(Print(v) + rest) == Some((v, rest))
    decreases v, 1
  {
    match v {
      case Null =>
        assert ("null" + rest)[0] == 'n';
        ReadPrintedWord("null", Null, rest);
      case Bool(b) =>
        if b {
          assert ("true" + rest)[0] == 't';
          ReadPrintedWord("true", Bool(true), rest);
        } else {
          assert ("false" + rest)[0] == 'f';
          ReadPrintedWord("false", Bool(false), rest);
        }
      case Number(digits) => ReadPrintedNumber(digits, rest);
      case Text(text) => ReadPrintedText(text, rest);
      case Array(elements) => ReadPrintedArray(elements, rest);
      case Object(members) => ReadPrintedObject(members, rest);
    }
  }

  lemma PrintStarts(v: Value)
    requires Proper(v)
    ensures Print(v) != "" && Print(v)[0] != ']'
  {
  }

  lemma ArrayText(elements: seq<Value>, rest: string)
    requires elements != [] && Proper(elements[0])
    ensures var s := Print(Array(elements)) + rest;
            |s| >= 2 && s[0] == '[' && s[1] != ']' && s[1..] == Joined(PrintAll(elements)) + "]" + rest
  {
    PrintStarts(elements[0]);
    assert Joined(PrintAll(elements))[0] == Print(elements[0])[0];
  }

  lemma ArrayStep(s: string, elements: seq<Value>, rest: string)
    requires |s| >= 2 && s[0] == '[' && s[1] != ']' && ReadElements(s[1..]) == Some((elements, rest))
    ensures ReadValue(s) == Some((Array(elements), rest))
  {
    hide ReadElements;
  }

  lemma {:induction false} ReadPrintedArray(elements: seq<Value>, rest: string)
    requires forall i :: 0 <= i < |elements| ==> Proper(elements[i])
    ensures ReadValue(Print(Array(elements)) + rest) == Some((Array(elements), rest))
    decreases elements, 1
  {
    if elements == [] {
      var s := "[]" + rest;
      assert Print(Array([])) == "[]" && s[0] == '[' && s[1] == ']' && s[2..] == rest;
    } else {
      ArrayText(elements, rest);
      ReadPrintedElements(elements, rest);
      hide Print, Joined, PrintAll, ReadElements, ReadValue, Proper;
      ArrayStep(Print(Array(elements)) + rest, elements, rest);
    }
  }

  lemma ElementsStep(s: string, v: Value, u: string, vs: seq<Value>, behind: string)
    requires ReadValue(s) == Some((v, "," + u)) && ReadElements(u) == Some((vs, behind))
    ensures ReadElements(s) == Some(([v] + vs, behind))
  {
    assert ("," + u)[1..] == u;
  }

  lemma ElementsEnd(s: string, v: Value, rest: string)
    requires ReadValue(s) == Some((v, "]" + rest))
    ensures ReadElements(s) == Some(([v], rest))
  {
    assert ("]" + rest)[1..] == rest;
  }

  lemma SingleElement(v: Value, rest: string)
    requires ReadValue(Print(v) + ("]" + rest)) == Some((v, "]" + rest))
    ensures ReadElements(Joined(PrintAll([v])) + "]" + rest) == Some(([v], rest))
  {
    assert Joined(PrintAll([v])) == Print(v);
    Associate(Print(v), "]", rest);
    ElementsEnd(Print(v) + ("]" + rest), v, rest);
  }

  lemma MoreElements(elements: seq<Value>, u: string, rest: string)
    requires |elements| >= 2 && u == Joined(PrintAll(elements[1..])) + "]" + rest
    requires ReadElements(u) == Some((elements[1..], rest))
    requires ReadValue(Print(elements[0]) + ("," + u)) == Some((elements[0], "," + u))
    ensures ReadElements(Joined(PrintAll(elements)) + "]" + rest) == Some((elements, rest))
  {
    assert PrintAll(elements)[1..] == PrintAll(elements[1..]);
    JoinedSplit(PrintAll(elements), "]", rest);
    ElementsStep(Print(elements[0]) + ("," + u), elements[0], u, elements[1..], rest);
    assert elements == [elements[0]] + elements[1..];
  }

  lemma {:induction false} ReadPrintedElements(elements: seq<Value>, rest: string)
    requires elements != [] && forall i :: 0 <= i < |elements| ==> Proper(elements[i])
    ensures ReadElements(Joined(PrintAll(elements)) + "]" + rest) == Some((elements, rest))
    decreases elements, 0
  {
    if |elements| == 1 {
      ReadPrinted(elements[0], "]" + rest);
      SingleElement(elements[0], rest);
      assert elements == [elements[0]];
    } else {
      var u := Joined(PrintAll(elements[1..])) + "]" + rest;
      ReadPrintedElements(elements[1..], rest);
      ReadPrinted(elements[0], "," + u);
      MoreElements(elements, u, rest);
    }
  }

  lemma JoinedFront(texts: seq<string>, tail: string)
    requires |texts| >= 2
    ensures Joined(texts) + tail == texts[0] + ("," + (Joined(texts[1..]) + tail))
  {
  }

  lemma JoinedSplit(texts: seq<string>, close: string, rest: string)
    requires |texts| >= 2
    ensures Joined(texts) + close + rest == texts[0] + ("," + (Joined(texts[1..]) + close + rest))
  {
    JoinedFront(texts, close + rest);
    Associate(Joined(texts), close, rest);
    Associate(Joined(texts[1..]), close, rest);
  }

  lemma MembersStep(s: string, m: Member, u: string, ms: seq<Member>, behind: string)
    requires ReadMember(s) == Some((m, "," + u)) && ReadMembers(u) == Some((ms, behind))
    ensures ReadMembers(s) == Some(([m] + ms, behind))
  {
    assert ("," + u)[1..] == u;
  }

  lemma MembersEnd(s: string, m: Member, rest: string)
    requires ReadMember(s) == Some((m, "}" + rest))
    ensures ReadMembers(s) == Some(([m], rest))
  {
    assert ("}" + rest)[1..] == rest;
  }

  lemma MemberText(m: Member, rest: string)
    ensures var s := PrintMember(m) + rest;
            s[0] == '"' && s[1..] == EscapeAll(m.key) + "\"" + (":" + (Print(m.value) + rest))
  {
    Associate("\"" + EscapeAll(m.key) + "\"", ":", Print(m.value));
  }

  lemma MemberStep(s: string, key: string, u: string, v: Value, rest: string)
    requires s != "" && s[0] == '"' && ReadText(s[1..]) == Some((key, ":" + u)) && ReadValue(u) == Some((v, rest))
    ensures ReadMember(s) == Some((Member(key, v), rest))
  {
    assert (":" + u)[1..] == u;
  }

  lemma {:induction false} ReadPrintedMember(m: Member, rest: string)
    requires Proper(m.value) && EndsNumber(rest)
    ensures ReadMember(PrintMember(m) + rest) == Some((m, rest))
    decreases m, 2
  {
    var u := Print(m.value) + rest;
    MemberText(m, rest);
    ReadQuoted(m.key, ":" + u);
    ReadPrinted(m.value, rest);
    MemberStep(PrintMember(m) + rest, m.key, u, m.value, rest);
  }

  lemma SingleMember(v: Member, rest: string)
    requires ReadMember(PrintMember(v) + ("}" + rest)) == Some((v, "}" + rest))
    ensures ReadMembers(Joined(PrintMembers([v])) + "}" + rest) == Some(([v], rest))
  {
    assert Joined(PrintMembers([v])) == PrintMember(v);
    Associate(PrintMember(v), "}", rest);
    MembersEnd(PrintMember(v) + ("}" + rest), v, rest);
  }

  lemma MoreMembers(members: seq<Member>, u: string, rest: string)
    requires |members| >= 2 && u == Joined(PrintMembers(members[1..])) + "}" + rest
    requires ReadMembers(u) == Some((members[1..], rest))
    requires ReadMember(PrintMember(members[0]) + ("," + u)) == Some((members[0], "," + u))
    ensures ReadMembers(Joined(PrintMembers(members)) + "}" + rest) == Some((members, rest))
  {
    assert PrintMembers(members)[1..] == PrintMembers(members[1..]);
    JoinedSplit(PrintMembers(members), "}", rest);
    MembersStep(PrintMember(members[0]) + ("," + u), members[0], u, members[1..], rest);
    assert members == [members[0]] + members[1..];
  }

  lemma {:induction false} ReadPrintedMembers(members: seq<Member>, rest: string)
    requires members != [] && forall i :: 0 <= i < |members| ==> Proper(members[i].value)
    ensures ReadMembers(Joined(PrintMembers(members)) + "}" + rest) == Some((members, rest))
    decreases members, 0
  {
    if |members| == 1 {
      ReadPrintedMember(members[0], "}" + rest);
      SingleMember(members[0], rest);
      assert members == [members[0]];
    } else {
      var u := Joined(PrintMembers(members[1..])) + "}" + rest;
      ReadPrintedMembers(members[1..], rest);
      ReadPrintedMember(members[0], "," + u);
      MoreMembers(members, u, rest);
    }
  }

  lemma {:induction false} ObjectText(members: seq<Member>, rest: string)
    requires members != []
    ensures var s := Print(Object(members)) + rest;
            |s| >= 2 && s[0] == '{' && s[1] == '"' && s[1..] == Joined(PrintMembers(members)) + "}" + rest
  {
    hide EscapeAll;
    var joined := Joined(PrintMembers(members));
    assert PrintMember(members[0])[0] == '"';
    assert joined[0] == '"';
    assert Print(Object(members)) == "{" + joined + "}";
    hide Print, Joined, PrintMembers;
    assert ("{" + joined + "}" + rest)[1..] == joined + "}" + rest;
  }

  lemma ObjectStep(s: string, members: seq<Member>, rest: string)
    requires |s| >= 2 && s[0] == '{' && s[1] == '"' && ReadMembers(s[1..]) == Some((members, rest))
    ensures ReadValue(s) == Some((Object(members), rest))
  {
    hide ReadMembers;
  }

  lemma {:induction false} ReadPrintedObject(members: seq<Member>, rest: string)
    requires forall i :: 0 <= i < |members| ==> Proper(members[i].value)
    ensures ReadValue(Print(Object(members)) + rest) == Some((Object(members), rest))
    decreases members, 1
  {
    if members == [] {
      var s := "{}" + rest;
      assert Print(Object([])) == "{}" && s[0] == '{' && s[1] == '}' && s[2..] == rest;
    } else {
      hide Print, Joined, PrintMembers, ReadMembers, ReadValue, Proper;
      ObjectText(members, rest);
      ReadPrintedMembers(members, rest);
      ObjectStep(Print(Object(members)) + rest, members, rest);
    }
  }

  // ----- equal texts, equal values -----

  lemma DistinctByMembership(members: seq<Member>)
    ensures DistinctKeys(members) <==>
            NoDuplicates(members) && forall a, b :: a in members && b in members && a.key == b.key ==> a == b
  {
    if DistinctKeys(members) {
      forall a, b | a in members && b in members && a.key == b.key ensures a == b {
        var i :| 0 <= i < |members| && members[i] == a;
        var j :| 0 <= j < |members| && members[j] == b;
        assert i == j;
      }
    }
  }

  lemma NormalMembersDistinct(members: seq<Member>)
    requires DistinctKeys(members)
    ensures DistinctKeys(NormalMembers(members))
  {
  }

  lemma SortDistinct(members: seq<Member>)
    requires DistinctKeys(members)
    ensures DistinctKeys(Sort(members, KeyLeq))
  {
    KeyOrder();
    SortCorrect(members, KeyLeq);
    SortNoDuplicates(members, KeyLeq);
    DistinctByMembership(members);
    DistinctByMembership(Sort(members, KeyLeq));
  }

  lemma {:induction false} NormalProper(v: Value)
    requires Proper(v)
    ensures Proper(Normal(v))
    decreases v
  {
    match v {
      case Array(elements) =>
        forall i | 0 <= i < |elements| ensures Proper(Normal(elements[i])) {
          NormalProper(elements[i]);
        }
      case Object(members) =>
        forall i | 0 <= i < |members| ensures Proper(Normal(members[i].value)) {
          NormalProper(members[i].value);
        }
        NormalObjectProper(members);
      case _ =>
    }
  }

  lemma NormalObjectProper(members: seq<Member>)
    requires DistinctKeys(members) && forall i :: 0 <= i < |members| ==> Proper(Normal(members[i].value))
    ensures Proper(Object(Sort(NormalMembers(members), KeyLeq)))
  {
    var normal := NormalMembers(members);
    NormalMembersDistinct(members);
    SortDistinct(normal);
    KeyOrder();
    SortCorrect(normal, KeyLeq);
    var sorted := Sort(normal, KeyLeq);
    forall i | 0 <= i < |sorted| ensures Proper(sorted[i].value) {
      assert sorted[i] in normal;
    }
  }

  lemma SameMembersSorted(x: seq<Member>, y: seq<Member>)
    requires DistinctKeys(x) && DistinctKeys(y)
    ensures Sort(x, KeyLeq) == Sort(y, KeyLeq) <==> forall m :: m in x <==> m in y
  {
    KeyOrder();
    SortCorrect(x, KeyLeq);
    SortCorrect(y, KeyLeq);
    if Sort(x, KeyLeq) == Sort(y, KeyLeq) {
      forall m ensures m in x <==> m in y {
        assert m in Sort(x, KeyLeq) <==> m in Sort(y, KeyLeq);
      }
    }
    if forall m :: m in x <==> m in y {
      DistinctByMembership(x);
      DistinctByMembership(y);
      NoDuplicatesCounts(x);
      NoDuplicatesCounts(y);
      assert multiset(x) == multiset(y) by {
        forall m ensures multiset(x)[m] == multiset(y)[m] {
          assert m in multiset(x) <==> m in x;
          assert m in multiset(y) <==> m in y;
        }
      }
      KeysAntisymmetric(x);
      SortedUnique(Sort(x, KeyLeq), Sort(y, KeyLeq), KeyLeq);
    }
  }

  lemma KeysAntisymmetric(x: seq<Member>)
    requires DistinctKeys(x)
    ensures AntisymmetricOn(Sort(x, KeyLeq), KeyLeq)
  {
    SortDistinct(x);
    var sorted := Sort(x, KeyLeq);
    DistinctByMembership(sorted);
    forall a, b | a in sorted && b in sorted && KeyLeq(a, b) && KeyLeq(b, a) ensures a == b {
      StringLeqAntisymmetric(a.key, b.key);
    }
  }

  lemma MatchingMember(x: seq<Member>, y: seq<Member>, i: nat) returns (j: nat)
    requires i < |x| && SameKeys(x, y)
    ensures j < |y| && y[j].key == x[i].key
  {
    assert HasKey(x, x[i].key);
    j :| 0 <= j < |y| && y[j].key == x[i].key;
  }

  /** Members with the same key have the same value. */
  ghost predicate SameValues(x: seq<Member>, y: seq<Member>) {
    forall i, j :: 0 <= i < |x| && 0 <= j < |y| && x[i].key == y[j].key ==> Same(x[i].value, y[j].value)
  }

  ghost predicate EqualNormalValues(x: seq<Member>, y: seq<Member>) {
    forall i, j :: 0 <= i < |x| && 0 <= j < |y| && x[i].key == y[j].key ==> Normal(x[i].value) == Normal(y[j].value)
  }

  lemma SameObjectMeans(x: seq<Member>, y: seq<Member>)
    ensures Same(Object(x), Object(y)) <==> SameKeys(x, y) && SameValues(x, y)
  {
  }

  lemma EqualWithinNormal(x: seq<Member>, y: seq<Member>)
    requires SameKeys(x, y) && EqualNormalValues(x, y)
    ensures forall m :: m in NormalMembers(x) <==> m in NormalMembers(y)
  {
    var p, q := NormalMembers(x), NormalMembers(y);
    forall i | 0 <= i < |p| ensures p[i] in q {
      var j := MatchingMember(x, y, i);
      assert q[j] == p[i];
    }
    forall j | 0 <= j < |q| ensures q[j] in p {
      var i := MatchingMember(y, x, j);
      assert p[i] == q[j];
    }
  }

  lemma EqualNormalWithin(x: seq<Member>, y: seq<Member>)
    requires DistinctKeys(y) && forall m :: m in NormalMembers(x) <==> m in NormalMembers(y)
    ensures SameKeys(x, y) && EqualNormalValues(x, y)
  {
    var p, q := NormalMembers(x), NormalMembers(y);
    forall key ensures HasKey(x, key) <==> HasKey(y, key) {
      if i :| 0 <= i < |x| && x[i].key == key {
        assert p[i] in q;
        var j :| 0 <= j < |q| && q[j] == p[i];
        assert y[j].key == key;
      }
      if j :| 0 <= j < |y| && y[j].key == key {
        assert q[j] in p;
        var i :| 0 <= i < |p| && p[i] == q[j];
        assert x[i].key == key;
      }
    }
    NormalMembersDistinct(y);
    forall i, j | 0 <= i < |x| && 0 <= j < |y| && x[i].key == y[j].key
      ensures Normal(x[i].value) == Normal(y[j].value) {
      assert p[i] in q;
      var k :| 0 <= k < |q| && q[k] == p[i];
      assert k == j;
    }
  }

  /** Objects have equal normal forms exactly when their members have, up to order. */
  lemma EqualObjects(x: seq<Member>, y: seq<Member>)
    requires DistinctKeys(x) && DistinctKeys(y)
    ensures Normal(Object(x)) == Normal(Object(y)) <==> SameKeys(x, y) && EqualNormalValues(x, y)
  {
    NormalMembersDistinct(x);
    NormalMembersDistinct(y);
    SameMembersSorted(NormalMembers(x), NormalMembers(y));
    if SameKeys(x, y) && EqualNormalValues(x, y) {
      EqualWithinNormal(x, y);
    }
    if Normal(Object(x)) == Normal(Object(y)) {
      assert Sort(NormalMembers(x), KeyLeq) == Sort(NormalMembers(y), KeyLeq);
      EqualNormalWithin(x, y);
    }
  }

  lemma {:induction false} SameIsEqualNormal(a: Value, b: Value)
    requires Proper(a) && Proper(b)
    ensures Same(a, b) <==> Normal(a) == Normal(b)
    decreases a
  {
    if a.Array? && b.Array? && |a.elements| == |b.elements| {
      forall i | 0 <= i < |a.elements|
        ensures Same(a.elements[i], b.elements[i]) <==> Normal(a.elements[i]) == Normal(b.elements[i]) {
        SameIsEqualNormal(a.elements[i], b.elements[i]);
      }
      EqualElements(a.elements, b.elements);
    } else if a.Object? && b.Object? {
      forall i, j | 0 <= i < |a.members| && 0 <= j < |b.members|
        ensures Same(a.members[i].value, b.members[j].value) <==>
                Normal(a.members[i].value) == Normal(b.members[j].value) {
        SameIsEqualNormal(a.members[i].value, b.members[j].value);
      }
      SameObjectMeans(a.members, b.members);
      EqualObjects(a.members, b.members);
    }
  }

  lemma EqualElements(x: seq<Value>, y: seq<Value>)
    requires |x| == |y|
    ensures NormalAll(x) == NormalAll(y) <==> forall i :: 0 <= i < |x| ==> Normal(x[i]) == Normal(y[i])
  {
    if NormalAll(x) == NormalAll(y) {
      assert forall i :: 0 <= i < |x| ==> Normal(x[i]) == NormalAll(x)[i] == NormalAll(y)[i];
    }
  }

  /** Two values have the same canonical text exactly when they are equal with objects read as maps. */
  lemma CanonicalExact(a: Value, b: Value)
    requires Proper(a) && Proper(b)
    ensures Canonical(a) == Canonical(b) <==> Same(a, b)
  {
    NormalProper(a);
    NormalProper(b);
    ReadPrinted(Normal(a), "");
    ReadPrinted(Normal(b), "");
    assert Canonical(a) + "" == Canonical(a) && Canonical(b) + "" == Canonical(b);
    SameIsEqualNormal(a, b);
  }

  /** In every object, at every depth, the keys are distinct and ascend: of two neighbours one key starts the other or
      the first difference is a smaller character. */
  ghost predicate Ordered(v: Value)
    decreases v
  {
    match v
    case Array(elements) => forall i :: 0 <= i < |elements| ==> Ordered(elements[i])
    case Object(members) =>
      && (forall i, j :: 0 <= i < j < |members| ==>
            members[i].key != members[j].key && StringLeq(members[i].key, members[j].key))
      && forall i :: 0 <= i < |members| ==> Ordered(members[i].value)
    case _ => true
  }

  lemma {:induction false} NormalOrdered(v: Value)
    requires Proper(v)
    ensures Ordered(Normal(v))
    decreases v
  {
    match v {
      case Array(elements) =>
        forall i | 0 <= i < |elements| ensures Ordered(Normal(elements[i])) {
          NormalOrdered(elements[i]);
        }
      case Object(members) =>
        var normal := NormalMembers(members);
        forall m | m in normal ensures Ordered(m.value) {
          var i :| 0 <= i < |normal| && normal[i] == m;
          NormalOrdered(members[i].value);
        }
        KeyOrder();
        SortCorrect(normal, KeyLeq);
        NormalMembersDistinct(members);
        SortDistinct(normal);
      case _ =>
    }
  }

  /** Reading the canonical text gives the same value back, with the keys of its objects in order. */
  lemma CanonicalRoundTrip(v: Value)
    requires Proper(v)
    ensures ReadValue(Canonical(v)) == Some((Normal(v), "")) && Same(v, Normal(v)) && Ordered(Normal(v))
  {
    NormalProper(v);
    NormalOrdered(v);
    ReadPrinted(Normal(v), "");
    assert Canonical(v) + "" == Canonical(v);
    NormalTwice(v);
    SameIsEqualNormal(v, Normal(v));
  }

  lemma {:induction false} NormalTwice(v: Value)
    requires Proper(v)
    ensures Normal(Normal(v)) == Normal(v)
    decreases v
  {
    match v {
      case Array(elements) =>
        forall i | 0 <= i < |elements| ensures Normal(Normal(elements[i])) == Normal(elements[i]) {
          NormalTwice(elements[i]);
        }
        assert NormalAll(NormalAll(elements)) == NormalAll(elements);
      case Object(members) =>
        forall i | 0 <= i < |members| ensures Normal(Normal(members[i].value)) == Normal(members[i].value) {
          NormalTwice(members[i].value);
        }
        var normal := NormalMembers(members);
        assert NormalMembers(normal) == normal;
        SortNormalMembers(normal);
        SortTwice(normal);
      case _ =>
    }
  }

  lemma SortTwice(members: seq<Member>)
    requires DistinctKeys(members)
    ensures Sort(Sort(members, KeyLeq), KeyLeq) == Sort(members, KeyLeq)
  {
    KeyOrder();
    SortCorrect(members, KeyLeq);
    SortDistinct(members);
    SameMembersSorted(Sort(members, KeyLeq), members);
  }
}
