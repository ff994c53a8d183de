/** What the errors of reading a Mojom file say about its text and its tokens. */
module MojomFaults {
  import opened Wrappers
  import opened MojomLexing
  import opened MojomElements
  import opened MojomParsing

  // ----- alphabets -----

  /** Words are made of letters, underscores and, behind the start, digits; space is any of four characters. */
  lemma Alphabets(c: char)
    ensures StartsIdent(c) <==> 65 <= c as int < 65 + 26 || 97 <= c as int < 97 + 26 || c as int == 95
    ensures IsIdentChar(c) <==> StartsIdent(c) || 48 <= c as int < 48 + 10
    ensures IsSpace(c) <==> c as int in {9, 10, 13, 32}
  {
  }

  // ----- lexical errors -----

  /** Characters of a string on one line: neither quotes nor backslashes, and backslashes with what they may escape. */
  ghost predicate Content(s: string) {
    || s == ""
    || (s[0] != '"' && s[0] != '\\' && s[0] != '\n' && Content(s[1..]))
    || (|s| >= 2 && s[0] == '\\' && s[1] in "\"\\nrt" && Content(s[2..]))
  }

  /** Behind the content of a string stands what ends it wrongly. */
  ghost predicate StringFault(rest: string, reason: Reason) {
    match reason
    case UnterminatedString => rest == ""
    case UnterminatedEscape => rest == "\\"
    case UnsupportedEscape => |rest| >= 2 && rest[0] == '\\' && rest[1] !in "\"\\nrt"
    case NewlineInString => rest != "" && rest[0] == '\n'
    case UnterminatedComment => false
  }

  lemma {:induction false} StringEnds(s: string) returns (k: nat)
    ensures k <= |s| && Content(s[..k])
    ensures StringSpan(s).Err? ==> StringFault(s[k..], StringSpan(s).error)
    ensures StringSpan(s).Ok? ==> k < |s| && s[k] == '"' && StringSpan(s).value.1 == k + 1
    decreases |s|
  {
    k := 0;
    if s != "" && s[0] == '\\' && |s| >= 2 && Unescape(s[1]).Some? {
      k := StringEnds(s[2..]);
      assert s[..k + 2][2..] == s[2..][..k] && s[k + 2..] == s[2..][k..];
      k := k + 2;
    } else if s != "" && s[0] != '"' && s[0] != '\\' && s[0] != '\n' {
      k := StringEnds(s[1..]);
      assert s[..k + 1][1..] == s[1..][..k] && s[k + 1..] == s[1..][k..];
      k := k + 1;
    }
  }

  lemma {:induction false} BlockOpen(s: string)
    requires BlockSpan(s).None?
    ensures forall i :: 0 <= i < |s| - 1 ==> !(s[i] == '*' && s[i + 1] == '/')
  {
    if s != "" {
      BlockOpen(s[1..]);
      forall i | 0 <= i < |s| - 1 ensures !(s[i] == '*' && s[i + 1] == '/') {
        if i > 0 {
          assert s[i] == s[1..][i - 1] && s[i + 1] == s[1..][i];
        }
      }
    }
  }

  /** A comment that is nowhere closed, or a string that does not end on its line or holds a wrong escape. */
  ghost predicate LexicalFault(rest: string, reason: Reason) {
    if reason == UnterminatedComment then
      "/*" <= rest && forall i :: 2 <= i < |rest| - 1 ==> !(rest[i] == '*' && rest[i + 1] == '/')
    else
      rest != "" && rest[0] == '"' &&
      exists k :: 1 <= k <= |rest| && Content(rest[1..k]) && StringFault(rest[k..], reason)
  }

  lemma NextFails(s: string)
    requires s != "" && Next(s).Fail?
    ensures LexicalFault(s, Next(s).reason)
  {
    if s[0] == '"' {
      var k := StringEnds(s[1..]);
      assert s[1..k + 1] == s[1..][..k] && s[k + 1..] == s[1..][k..];
    } else {
      BlockOpen(s[2..]);
      forall i | 2 <= i < |s| - 1 ensures !(s[i] == '*' && s[i + 1] == '/') {
        assert s[i] == s[2..][i - 2] && s[i + 1] == s[2..][i - 1];
      }
    }
  }

  /** The error is true of the text where it is reported. */
  lemma {:induction false} LexicalFaultMeans(text: string, start: nat)
    requires Lexemes(text, start).Err?
    ensures var e := Lexemes(text, start).error;
            start <= e.start < start + |text| && LexicalFault(text[e.start - start..], e.reason)
    decreases |text|
  {
    hide LexicalFault, Next;
    if Next(text).Fail? {
      NextFails(text);
      assert text[0..] == text;
    } else {
      var n := Next(text).n;
      LexicalFaultMeans(text[n..], start + n);
      var e := Lexemes(text[n..], start + n).error;
      assert Lexemes(text, start).error == e;
      assert text[e.start - start..] == text[n..][e.start - start - n..];
    }
  }

  // ----- grammatical errors -----

  /** The first token here starts no element, and this is why. */
  ghost predicate GrammaticalFault(es: seq<Element>, named: bool, rest: seq<Kind>, reason: ParseReason) {
    rest != [] &&
    match reason
    case UnmatchedBrace => rest[0] == Punct('}')
    case UnclosedBody => rest[0] == Punct('{') && forall i :: 1 <= i <= |rest| ==> Depth(rest[1..i]) >= 0
    case MultipleModules => rest[0] == Ident("module") && (named || exists e :: e in es && e.ModuleName?)
    case BadImport => rest[0] == Ident("import") && !(|rest| >= 3 && rest[1].Literal? && rest[2] == Punct(';'))
    case BadModule => rest[0] == Ident("module") && forall parts :: parts != [] ==> !(Dotted(parts) <= rest[1..])
    case BadDeclaration =>
      && rest[0].Ident? && rest[0].name in {"interface", "struct", "union", "enum"}
      && !(|rest| >= 2 && rest[1].Ident?)
  }

  lemma {:induction false} NoClose(ks: seq<Kind>, depth: nat)
    requires depth >= 1 && MatchingClose(ks, depth).None?
    ensures forall i :: 0 <= i <= |ks| ==> Depth(ks[..i]) + depth >= 1
    decreases |ks|
  {
    if ks != [] {
      var next := StepDepth(ks[0], depth);
      NoClose(ks[1..], next);
      forall i | 0 <= i <= |ks| ensures Depth(ks[..i]) + depth >= 1 {
        if i > 0 {
          assert ks[..i][1..] == ks[1..][..i - 1];
          assert Depth(ks[1..][..i - 1]) + next >= 1;
        }
      }
    }
  }

  lemma NoneClosed(ks: seq<Kind>)
    requires ks != [] && MatchingClose(ks[1..], 1).None?
    ensures forall i :: 1 <= i <= |ks| ==> Depth(ks[1..i]) >= 0
  {
    hide Depth, MatchingClose;
    NoClose(ks[1..], 1);
    forall i | 1 <= i <= |ks| ensures Depth(ks[1..i]) >= 0 {
      assert ks[1..i] == ks[1..][..i - 1];
    }
  }

  lemma NoDotted(ks: seq<Kind>)
    requires ReadDotted(ks).None?
    ensures forall parts :: parts != [] ==> !(Dotted(parts) <= ks)
  {
    hide ReadDotted, Dotted;
    forall parts | parts != [] && Dotted(parts) <= ks ensures false {
      assert ks == Dotted(parts) + ks[|Dotted(parts)|..];
      ReadDottedExact(parts, ks[|Dotted(parts)|..]);
    }
  }

  /** Why the reader of the first element gives up. */
  ghost predicate GivesUp(ks: seq<Kind>, named: bool, reason: ParseReason)
    requires ks != []
  {
    match reason
    case UnmatchedBrace => ks[0] == CLOSE
    case UnclosedBody => ks[0] == OPEN && MatchingClose(ks[1..], 1).None?
    case MultipleModules => ks[0] == Ident(MODULE) && named
    case BadImport => ks[0] == Ident("import") && !(|ks| >= 3 && ks[1].Literal? && ks[2] == Punct(';'))
    case BadModule => ks[0] == Ident(MODULE) && ReadDotted(ks[1..]).None?
    case BadDeclaration =>
      && ks[0].Ident? && ks[0].name in {"interface", "struct", "union", "enum"}
      && !(|ks| >= 2 && ks[1].Ident?)
  }

  lemma FaultGivesUp(ks: seq<Kind>, named: bool)
    requires ks != [] && FaultOf(ks, named).Some?
    ensures GivesUp(ks, named, FaultOf(ks, named).value)
  {
    hide MatchingClose, ReadDotted;
  }

  lemma FaultIsTrue(es: seq<Element>, ks: seq<Kind>, named: bool)
    requires ks != [] && FaultOf(ks, named).Some?
    ensures GrammaticalFault(es, named, ks, FaultOf(ks, named).value)
  {
    FaultGivesUp(ks, named);
    hide FaultOf, MatchingClose, ReadDotted, Dotted, Depth;
    match FaultOf(ks, named).value {
      case BadModule => NoDotted(ks[1..]);
      case UnclosedBody => NoneClosed(ks);
      case _ =>
    }
  }

  /** Good elements stand before the fault, and it is true of what follows them. */
  lemma {:induction false} GrammaticalFaultMeans(ks: seq<Kind>, start: nat, named: bool) returns (es: seq<Element>)
    requires FirstFault(ks, start, named).Some?
    ensures var f := FirstFault(ks, start, named).value;
            && start <= f.at <= start + |ks| && AllGood(es) && SpelledAll(es) == ks[..f.at - start]
            && GrammaticalFault(es, named, ks[f.at - start..], f.reason)
    decreases |ks|
  {
    hide GrammaticalFault, ReadElement, GoodElement, Spelled, FaultOf;
    if FaultOf(ks, named).Some? {
      es := [];
      FaultIsTrue(es, ks, named);
      assert ks[0..] == ks && ks[..0] == [];
    } else {
      var (e, n) := ReadElement(ks).value;
      ReadElementGood(ks);
      var rest := GrammaticalFaultMeans(ks[n..], start + n, named || e.ModuleName?);
      var f := FirstFault(ks[n..], start + n, named || e.ModuleName?).value;
      assert FirstFault(ks, start, named) == Some(f);
      es := [e] + rest;
      FaultKept(e, rest, named, ks[n..][f.at - start - n..], f.reason);
      hide FirstFault;
      assert es[1..] == rest;
      assert ks[..f.at - start] == ks[..n] + ks[n..][..f.at - start - n];
      assert ks[f.at - start..] == ks[n..][f.at - start - n..];
    }
  }

  lemma FaultKept(e: Element, rest: seq<Element>, named: bool, ks: seq<Kind>, reason: ParseReason)
    requires GrammaticalFault(rest, named || e.ModuleName?, ks, reason)
    ensures GrammaticalFault([e] + rest, named, ks, reason)
  {
    assert ([e] + rest)[0] == e;
    forall x | x in rest ensures x in [e] + rest {
    }
  }
}
