/** Module ids made from GN labels: sanitised, and made unique by a hash and a sequence number. */
module LabelIds {
  import opened GnProject

  type Hash32 = x: nat | x < 0x1_0000_0000

  predicate IsLower(c: char) { 'a' <= c <= 'z' }
  predicate IsUpper(c: char) { 'A' <= c <= 'Z' }
  predicate IsDigit(c: char) { '0' <= c <= '9' }
  predicate IsAlphanumeric(c: char) { IsLower(c) || IsUpper(c) || IsDigit(c) }

  function ToLower(c: char): (r: char)
    ensures IsAlphanumeric(c) ==> IsLower(r) || IsDigit(r)
    ensures IdChar(c) ==> r == c
  {
    if IsUpper(c) then (c as int + 32) as char else c
  }

  predicate IdChar(c: char) { IsLower(c) || IsDigit(c) || c == '_' }

  /** Lower-case letters, digits and underscores, not empty and not starting with a digit. */
  predicate IsId(s: string) {
    s != "" && !IsDigit(s[0]) && forall i :: 0 <= i < |s| ==> IdChar(s[i])
  }

  function TrimSlashes(s: string): string {
    if |s| >= 2 && s[0] == '/' && s[1] == '/' then TrimSlashes(s[2..]) else s
  }

  /** The letters and digits of a label, lower-cased, in order: what a sanitised id keeps of it. */
  function Letters(s: string): string {
    if s == "" then ""
    else if IsAlphanumeric(s[0]) then [ToLower(s[0])] + Letters(s[1..])
    else Letters(s[1..])
  }

  lemma {:induction false} LettersSnoc(s: string, c: char)
    ensures Letters(s + [c]) == Letters(s) + if IsAlphanumeric(c) then [ToLower(c)] else ""
  {
    if s != "" {
      assert (s + [c])[1..] == s[1..] + [c];
      LettersSnoc(s[1..], c);
    } else {
      assert (s + [c])[1..] == "";
    }
  }

  // ----- the words of a text -----

  function Lowered(s: string): (r: string)
    ensures |r| == |s| && forall i :: 0 <= i < |s| ==> r[i] == ToLower(s[i])
  {
    if s == "" then "" else [ToLower(s[0])] + Lowered(s[1..])
  }

  /** How many letters and digits the text starts with. */
  function RunLength(s: string): (n: nat)
    ensures n <= |s| && (forall i :: 0 <= i < n ==> IsAlphanumeric(s[i])) && (n < |s| ==> !IsAlphanumeric(s[n]))
  {
    if s != "" && IsAlphanumeric(s[0]) then 1 + RunLength(s[1..]) else 0
  }

  /** The maximal runs of letters and digits, lower-cased. */
  function Words(s: string): (words: seq<string>)
    ensures forall i :: 0 <= i < |words| ==> words[i] != ""
    ensures s != "" && IsAlphanumeric(s[|s| - 1]) ==> words != []
    decreases |s|
  {
    if s == "" then []
    else if RunLength(s) == 0 then Words(s[1..])
    else [Lowered(s[..RunLength(s)])] + Words(s[RunLength(s)..])
  }

  function JoinWords(words: seq<string>): string {
    if words == [] then "" else if |words| == 1 then words[0] else words[0] + "_" + JoinWords(words[1..])
  }

  predicate EndsInWord(s: string) {
    s != "" && IsAlphanumeric(s[|s| - 1])
  }

  /** The words with one more letter or digit, which continues the last word or starts a new one. */
  function Continued(words: seq<string>, c: char, inWord: bool): seq<string>
    requires inWord ==> words != []
  {
    if inWord then words[..|words| - 1] + [words[|words| - 1] + [c]] else words + [[c]]
  }

  lemma LoweredSnoc(s: string, c: char)
    ensures Lowered(s + [c]) == Lowered(s) + [ToLower(c)]
  {
  }

  lemma WordsOfRun(s: string)
    requires s != "" && RunLength(s) == |s|
    ensures Words(s) == [Lowered(s)]
  {
    assert s[..|s|] == s && s[|s|..] == "";
  }

  lemma WordsBehind(s: string)
    requires s != ""
    ensures RunLength(s) == 0 ==> Words(s) == Words(s[1..])
    ensures RunLength(s) > 0 ==> Words(s) == [Lowered(s[..RunLength(s)])] + Words(s[RunLength(s)..])
  {
  }

  lemma WordsOfOne(c: char)
    ensures Words([c]) == if IsAlphanumeric(c) then [[ToLower(c)]] else []
  {
    if IsAlphanumeric(c) {
      assert [c][..RunLength([c])] == [c] && [c][RunLength([c])..] == "" && Words("") == [];
      assert Lowered([c]) == [ToLower(c)];
    } else {
      assert [c][1..] == "" && Words("") == [];
    }
  }

  lemma ContinuedBehind(first: string, words: seq<string>, c: char, inWord: bool)
    requires inWord ==> words != []
    ensures Continued([first] + words, c, inWord) == [first] + Continued(words, c, inWord)
  {
  }

  /** What one more character does to the words. */
  ghost predicate Extends(s: string, c: char) {
    Words(s + [c]) == if IsAlphanumeric(c) then Continued(Words(s), ToLower(c), EndsInWord(s)) else Words(s)
  }

  lemma ExtendsRun(s: string, c: char)
    requires s != "" && RunLength(s) == |s|
    ensures Extends(s, c)
  {
    hide Words, Lowered, Continued;
    RunLengthSnoc(s, c);
    WordsOfRun(s);
    if IsAlphanumeric(c) {
      WordsOfRun(s + [c]);
      LoweredSnoc(s, c);
      ContinuedOnly(Lowered(s), ToLower(c));
    } else {
      WordsBehind(s + [c]);
      assert (s + [c])[..|s|] == s && (s + [c])[|s|..] == [c];
      WordsOfOne(c);
    }
  }

  lemma ExtendsSkipped(s: string, c: char)
    requires s != "" && RunLength(s) == 0 && Extends(s[1..], c)
    ensures Extends(s, c)
  {
    hide Words, Lowered, Continued;
    RunLengthSnoc(s, c);
    WordsBehind(s);
    WordsBehind(s + [c]);
    assert (s + [c])[1..] == s[1..] + [c];
  }

  lemma EndsBehind(s: string, n: nat)
    requires n < |s|
    ensures EndsInWord(s[n..]) == EndsInWord(s)
  {
  }

  lemma ExtendsConcat(s: string, first: string, tail: string, c: char)
    requires Words(s) == [first] + Words(tail) && Words(s + [c]) == [first] + Words(tail + [c])
    requires EndsInWord(s) == EndsInWord(tail) && Extends(tail, c)
    ensures Extends(s, c)
  {
    hide Words, Continued;
    if IsAlphanumeric(c) {
      ContinuedBehind(first, Words(tail), ToLower(c), EndsInWord(tail));
    }
  }

  lemma WordsSplit(s: string, c: char)
    requires 0 < RunLength(s) < |s|
    ensures var first, tail := Lowered(s[..RunLength(s)]), s[RunLength(s)..];
            Words(s) == [first] + Words(tail) && Words(s + [c]) == [first] + Words(tail + [c])
  {
    hide Words, Lowered;
    var n := RunLength(s);
    RunLengthSnoc(s, c);
    SliceSnoc(s, c, n);
    WordsFrom(s, n, s[..n], s[n..]);
    WordsFrom(s + [c], n, s[..n], s[n..] + [c]);
  }

  lemma SliceSnoc(s: string, c: char, n: nat)
    requires n <= |s|
    ensures (s + [c])[..n] == s[..n] && (s + [c])[n..] == s[n..] + [c]
  {
  }

  lemma WordsFrom(s: string, n: nat, run: string, tail: string)
    requires s != "" && n == RunLength(s) > 0 && run == s[..n] && tail == s[n..]
    ensures Words(s) == [Lowered(run)] + Words(tail)
  {
    WordsBehind(s);
  }

  lemma ExtendsBehind(s: string, c: char)
    requires 0 < RunLength(s) < |s| && Extends(s[RunLength(s)..], c)
    ensures Extends(s, c)
  {
    hide Words, Lowered, Extends, EndsInWord;
    WordsSplit(s, c);
    EndsBehind(s, RunLength(s));
    ExtendsConcat(s, Lowered(s[..RunLength(s)]), s[RunLength(s)..], c);
  }

  lemma {:induction false} WordsSnoc(s: string, c: char)
    ensures Extends(s, c)
    decreases |s|
  {
    if s == "" {
      assert s + [c] == [c];
      WordsOfOne(c);
    } else {
      hide Extends;
      if RunLength(s) == |s| {
        ExtendsRun(s, c);
      } else if RunLength(s) == 0 {
        WordsSnoc(s[1..], c);
        ExtendsSkipped(s, c);
      } else {
        WordsSnoc(s[RunLength(s)..], c);
        ExtendsBehind(s, c);
      }
    }
  }

  lemma ContinuedOnly(word: string, c: char)
    ensures Continued([word], c, true) == [word + [c]]
  {
  }

  lemma {:induction false} RunLengthSnoc(s: string, c: char)
    ensures RunLength(s + [c]) ==
            if RunLength(s) < |s| then RunLength(s) else if IsAlphanumeric(c) then |s| + 1 else |s|
  {
    if s != "" {
      assert (s + [c])[0] == s[0] && (s + [c])[1..] == s[1..] + [c];
      RunLengthSnoc(s[1..], c);
    }
  }

  lemma {:induction false} JoinContinued(words: seq<string>, c: char, inWord: bool)
    requires inWord ==> words != []
    ensures JoinWords(Continued(words, c, inWord)) ==
            if inWord || words == [] then JoinWords(words) + [c] else JoinWords(words) + "_" + [c]
  {
    if |words| > 1 {
      JoinContinued(words[1..], c, inWord);
      assert Continued(words, c, inWord)[1..] == Continued(words[1..], c, inWord);
      assert words[0] + "_" + (JoinWords(words[1..]) + [c]) == words[0] + "_" + JoinWords(words[1..]) + [c];
      assert words[0] + "_" + (JoinWords(words[1..]) + "_" + [c]) ==
             words[0] + "_" + JoinWords(words[1..]) + "_" + [c];
    } else if |words| == 1 {
      assert (words + [[c]])[1..] == [[c]];
    }
  }

  /** What the scan has written: the words so far, and an underscore when it is behind the last of them. */
  function Scanned(text: string): string {
    JoinWords(Words(text)) + if Words(text) != [] && !EndsInWord(text) then "_" else ""
  }

  lemma ScannedSnoc(text: string, c: char)
    ensures Scanned(text + [c]) ==
            if IsAlphanumeric(c) then Scanned(text) + [ToLower(c)]
            else if Words(text) != [] && EndsInWord(text) then Scanned(text) + "_"
            else Scanned(text)
  {
    hide Words, JoinWords;
    WordsSnoc(text, c);
    assert EndsInWord(text + [c]) <==> IsAlphanumeric(c);
    if IsAlphanumeric(c) {
      JoinContinued(Words(text), ToLower(c), EndsInWord(text));
      assert JoinWords(Words(text)) + "" == JoinWords(Words(text));
    }
  }

  ghost predicate NoDoubleUnderscore(s: string) {
    forall i, j :: 0 <= i && j == i + 1 && j < |s| ==> !(s[i] == '_' && s[j] == '_')
  }

  /** Single underscores between runs of letters and digits; none at the front. */
  ghost predicate Separated(s: string) {
    && (forall i :: 0 <= i < |s| ==> IdChar(s[i]))
    && (s != "" ==> s[0] != '_')
    && NoDoubleUnderscore(s)
  }

  /** Replace each run of other characters after the first letter or digit by one underscore. */
  method Collapse(text: string) returns (result: string)
    ensures Separated(result) && Letters(result) == Letters(text) && result == Scanned(text)
  {
    hide Scanned, Words;
    result := "";
    var previousSeparator := false;
    ScannedStart();
    for i := 0 to |text|
      invariant Separated(result) && Letters(result) == Letters(text[..i])
      invariant previousSeparator <==> result != "" && result[|result| - 1] == '_'
      invariant result == Scanned(text[..i])
    {
      assert text[..i + 1] == text[..i] + [text[i]];
      ScannedStep(text[..i], text[i]);
      LettersSnoc(text[..i], text[i]);
      if IsAlphanumeric(text[i]) {
        LettersSnoc(result, ToLower(text[i]));
        result := result + [ToLower(text[i])];
        previousSeparator := false;
      } else if !previousSeparator && result != "" {
        LettersSnoc(result, '_');
        result := result + ['_'];
        previousSeparator := true;
      }
    }
    assert text[..|text|] == text;
  }

  lemma ScannedStart()
    ensures Scanned("") == ""
  {
  }

  /** The scan ends in an underscore exactly behind a word. */
  lemma ScannedEnd(text: string)
    ensures var s := Scanned(text);
            (s != "" && s[|s| - 1] != '_') <==> Words(text) != [] && EndsInWord(text)
  {
    hide Words;
    if Words(text) != [] {
      JoinEnd(Words(text));
      WordsPlain(text);
    }
  }

  lemma ScannedStep(text: string, c: char)
    ensures var s := Scanned(text);
            Scanned(text + [c]) ==
            if IsAlphanumeric(c) then s + [ToLower(c)]
            else if s != "" && s[|s| - 1] != '_' then s + ['_']
            else s
  {
    hide Scanned, Words, EndsInWord;
    ScannedEnd(text);
    ScannedSnoc(text, c);
    assert "_" == ['_'];
  }

  lemma {:induction false} JoinEnd(words: seq<string>)
    requires words != [] && forall i :: 0 <= i < |words| ==> words[i] != ""
    ensures var s, last := JoinWords(words), words[|words| - 1]; s != "" && s[|s| - 1] == last[|last| - 1]
    ensures JoinWords(words)[0] == words[0][0]
  {
    if |words| > 1 {
      JoinEnd(words[1..]);
    }
  }

  lemma {:induction false} WordsPlain(s: string)
    ensures forall i, j :: 0 <= i < |Words(s)| && 0 <= j < |Words(s)[i]| ==> Words(s)[i][j] != '_'
    decreases |s|
  {
    if s != "" {
      var n := RunLength(s);
      WordsPlain(if n == 0 then s[1..] else s[n..]);
    }
  }

  method TrimTrailing(text: string) returns (result: string)
    requires Separated(text)
    ensures Separated(result) && Letters(result) == Letters(text)
    ensures result != "" ==> result[|result| - 1] != '_'
    ensures text == result || (text != "" && result == text[..|text| - 1] && text[|text| - 1] == '_')
  {
    result := text;
    while result != "" && result[|result| - 1] == '_'
      invariant Separated(result) && Letters(result) == Letters(text)
      invariant result == text ||
                (text != "" && result == text[..|text| - 1] && text[|text| - 1] == '_' &&
                 (result != "" ==> result[|result| - 1] != '_'))
      decreases |result|
    {
      ghost var longer := result;
      result := result[..|result| - 1];
      assert longer == result + ['_'];
      LettersSnoc(result, '_');
    }
  }

  lemma {:induction false} LettersOfRoot()
    ensures Letters("root") == "root"
  {
    LettersOfId("root");
  }

  lemma {:induction false} LettersOfModule()
    ensures Letters("module_") == "module"
  {
    LettersOfId("module");
    LettersSnoc("module", '_');
    assert "module" + ['_'] == "module_";
  }

  /** What an id made from this text keeps: its letters and digits, behind `module` when they start with a digit. */
  function Kept(text: string): string {
    var kept := Letters(TrimSlashes(text));
    if kept == "" then "root" else if IsDigit(kept[0]) then "module" + kept else kept
  }

  /** Separated text that ends in a letter or digit is an id, unless it is empty or starts with a digit. */
  lemma {:induction false} TrimmedIsId(result: string)
    requires Separated(result) && result != "" && result[|result| - 1] != '_'
    ensures Letters(result) != "" && Letters(result)[0] == result[0]
    ensures if IsDigit(result[0]) then IsId("module_" + result) && NoDoubleUnderscore("module_" + result)
            else IsId(result) && NoDoubleUnderscore(result)
  {
    assert Letters(result) == [ToLower(result[0])] + Letters(result[1..]);
  }

  /** The words of a label joined by underscores, behind `module` when they start with a digit. */
  function IdBase(name: string): string {
    var words := Words(TrimSlashes(name));
    if words == [] then "root"
    else if IsDigit(words[0][0]) then "module_" + JoinWords(words)
    else JoinWords(words)
  }

  lemma TrimmedIsBase(name: string, collapsed: string, result: string)
    requires collapsed == Scanned(TrimSlashes(name))
    requires collapsed == result || (collapsed != "" && result == collapsed[..|collapsed| - 1] &&
                                     collapsed[|collapsed| - 1] == '_')
    requires result != "" ==> result[|result| - 1] != '_'
    ensures result == JoinWords(Words(TrimSlashes(name)))
    ensures result == "" <==> Words(TrimSlashes(name)) == []
    ensures result != "" ==> result[0] == Words(TrimSlashes(name))[0][0]
  {
    hide Words, TrimSlashes;
    var text := TrimSlashes(name);
    ScannedEnd(text);
    if Words(text) != [] {
      JoinEnd(Words(text));
      WordsPlain(text);
    }
  }

  method SanitizeId(name: string) returns (id: string)
    ensures id == IdBase(name)
    ensures IsId(id) && id[|id| - 1] != '_' && NoDoubleUnderscore(id)
    ensures Letters(id) == Kept(name)
  {
    hide Words, JoinWords, Scanned;
    LettersOfRoot();
    LettersOfModule();
    var collapsed := Collapse(TrimSlashes(name));
    var result := TrimTrailing(collapsed);
    TrimmedIsBase(name, collapsed, result);
    if result == "" {
      return "root";
    }
    hide Letters, TrimSlashes, Separated, NoDoubleUnderscore, IsId, Words, JoinWords;
    TrimmedIsId(result);
    if IsDigit(result[0]) {
      LettersOfPrefix("module_", result);
      return "module_" + result;
    }
    return result;
  }

  lemma {:induction false} LettersOfPrefix(a: string, b: string)
    ensures Letters(a + b) == Letters(a) + Letters(b)
  {
    if a == "" {
      assert a + b == b;
    } else {
      assert (a + b)[1..] == a[1..] + b;
      LettersOfPrefix(a[1..], b);
    }
  }

  lemma {:induction false} LettersOfId(s: string)
    requires forall i :: 0 <= i < |s| ==> IsLower(s[i]) || IsDigit(s[i])
    ensures Letters(s) == s
  {
    if s != "" {
      LettersOfId(s[1..]);
      assert s == [s[0]] + s[1..];
    }
  }

  // ----- numbers in ids -----

  function HexDigit(d: nat): (c: char)
    requires d < 16
    ensures IsDigit(c) || IsLower(c)
  {
    if d < 10 then ('0' as int + d) as char else ('a' as int + d - 10) as char
  }

  /** Lower-case hexadecimal digits, zero-padded to the width. */
  function Hex(n: nat, width: nat): (s: string)
    ensures |s| == width
    ensures forall i :: 0 <= i < |s| ==> IdChar(s[i])
  {
    if width == 0 then "" else Hex(n / 16, width - 1) + [HexDigit(n % 16)]
  }

  function Power16(width: nat): nat {
    if width == 0 then 1 else 16 * Power16(width - 1)
  }

  /** The number a digit stands for, in hexadecimal and in decimal notation. */
  function DigitValue(c: char): nat
    requires IsDigit(c) || IsLower(c)
  {
    if IsDigit(c) then c as int - '0' as int else c as int - 'a' as int + 10
  }

  function NumberValue(s: string, base: nat): nat
    requires forall i :: 0 <= i < |s| ==> IsDigit(s[i]) || IsLower(s[i])
  {
    if s == "" then 0 else base * NumberValue(s[..|s| - 1], base) + DigitValue(s[|s| - 1])
  }

  /** The text stands for the number. */
  lemma {:induction false} HexReads(n: nat, width: nat)
    requires n < Power16(width)
    ensures forall i :: 0 <= i < |Hex(n, width)| ==> IsDigit(Hex(n, width)[i]) || IsLower(Hex(n, width)[i])
    ensures NumberValue(Hex(n, width), 16) == n
  {
    if width != 0 {
      HexReads(n / 16, width - 1);
      assert Hex(n, width)[..width - 1] == Hex(n / 16, width - 1);
    }
  }

  /** Numbers of at most so many digits have texts of their own. */
  lemma HexInjective(m: nat, n: nat, width: nat)
    requires m < Power16(width) && n < Power16(width) && Hex(m, width) == Hex(n, width)
    ensures m == n
  {
    HexReads(m, width);
    HexReads(n, width);
  }

  lemma EightDigits()
    ensures Power16(8) == 0x1_0000_0000
  {
    assert Power16(2) == 0x100 && Power16(4) == 0x1_0000 && Power16(6) == 0x100_0000;
  }

  function Decimal(n: nat): (s: string)
    ensures s != "" && forall i :: 0 <= i < |s| ==> IsDigit(s[i])
  {
    var last := [('0' as int + n % 10) as char];
    if n < 10 then last else Decimal(n / 10) + last
  }

  /** The text stands for the number, without zeros in front. */
  lemma {:induction false} DecimalReads(n: nat)
    ensures NumberValue(Decimal(n), 10) == n
    ensures Decimal(n)[0] == '0' <==> n == 0
  {
    var s := Decimal(n);
    if n >= 10 {
      DecimalReads(n / 10);
      assert s[..|s| - 1] == Decimal(n / 10);
    } else {
      assert s[..0] == "";
    }
  }

  lemma DecimalInjective(m: nat, n: nat)
    requires Decimal(m) == Decimal(n)
    ensures m == n
  {
    DecimalReads(m);
    DecimalReads(n);
  }

  /** The id tried after the plain and the hashed one. */
  function Numbered(hashed: string, sequence: nat): string {
    hashed + "_" + Decimal(sequence)
  }

  lemma NumberedInjective(hashed: string, m: nat, n: nat)
    requires Numbered(hashed, m) == Numbered(hashed, n)
    ensures m == n
  {
    var s := Numbered(hashed, m);
    assert s[|hashed| + 1..] == Decimal(m);
    assert s[|hashed| + 1..] == Decimal(n);
    DecimalInjective(m, n);
  }
}
