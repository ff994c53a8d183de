/** The lines of a source that count as authored, and how they compare with its lines outside of comments. */
module AuthoredLines {
  import opened Wrappers
  import opened Texts
  import opened Comments
  import opened CommentSegments

  /** The numbers of the lines that hold something besides whitespace. */
  function AuthoredLineNumbers(cleaned: string): set<nat> {
    var lines := Lines(cleaned);
    set k | 0 <= k < |lines| && Trim(lines[k]) != "" :: k + 1
  }

  ghost predicate HasInk(s: string) {
    exists i :: 0 <= i < |s| && !IsWhite(s[i])
  }

  /** Some character with k line feeds before it is not whitespace. */
  ghost predicate InkAt(s: string, k: nat) {
    exists i :: 0 <= i < |s| && !IsWhite(s[i]) && Newlines(s[..i]) == k
  }

  lemma {:induction false} TrimStartInk(s: string)
    ensures TrimStart(s) != "" <==> HasInk(s)
  {
    if s != "" && IsWhite(s[0]) {
      TrimStartInk(s[1..]);
      if i :| 0 <= i < |s| && !IsWhite(s[i]) {
        assert s[1..][i - 1] == s[i];
      }
    }
  }

  lemma TrimInk(s: string)
    ensures Trim(s) != "" <==> HasInk(s)
  {
    TrimStartInk(s);
    var t := TrimStart(s);
    if t != "" {
      TrimEndKeeps(t);
    }
  }

  lemma {:induction false} TrimEndKeeps(t: string)
    requires t != "" && !IsWhite(t[0])
    ensures TrimEnd(t) != ""
  {
    if IsWhite(t[|t| - 1]) {
      TrimEndKeeps(t[..|t| - 1]);
    }
  }

  lemma InkBehind(s: string, k: nat)
    requires s != ""
    ensures InkAt(s, k) <==> (k == 0 && !IsWhite(s[0])) ||
                             (if s[0] == '\n' then k > 0 && InkAt(s[1..], k - 1) else InkAt(s[1..], k))
  {
    var shift := if s[0] == '\n' then 1 else 0;
    if i :| 0 <= i < |s| && !IsWhite(s[i]) && Newlines(s[..i]) == k {
      if i > 0 {
        assert s[..i][1..] == s[1..][..i - 1] && s[1..][i - 1] == s[i];
      }
    }
    if k >= shift && InkAt(s[1..], k - shift) {
      var j :| 0 <= j < |s[1..]| && !IsWhite(s[1..][j]) && Newlines(s[1..][..j]) == k - shift;
      assert s[..j + 1][1..] == s[1..][..j] && s[j + 1] == s[1..][j];
    }
    if k == 0 && !IsWhite(s[0]) {
      assert Newlines(s[..0]) == 0;
    }
  }

  lemma InkSnoc(current: string, c: char)
    ensures HasInk(current + [c]) <==> HasInk(current) || !IsWhite(c)
  {
    var s := current + [c];
    assert s[|current|] == c && forall i :: 0 <= i < |current| ==> s[i] == current[i];
  }

  lemma InkDropReturn(current: string)
    ensures HasInk(DropReturn(current)) <==> HasInk(current)
  {
    if current != "" && current[|current| - 1] == '\r' {
      assert current == current[..|current| - 1] + ['\r'];
      InkSnoc(current[..|current| - 1], '\r');
    }
  }

  lemma {:induction false} LineInk(s: string, current: string, k: nat)
    ensures var lines := LinesFrom(s, current);
            (k < |lines| && HasInk(lines[k])) <==> ((k == 0 && HasInk(current)) || InkAt(s, k))
    decreases |s|
  {
    if s != "" {
      InkBehind(s, k);
      if s[0] == '\n' {
        InkDropReturn(current);
        if k > 0 {
          LineInk(s[1..], "", k - 1);
        }
      } else {
        InkSnoc(current, s[0]);
        LineInk(s[1..], current + [s[0]], k);
      }
    }
  }

  lemma AuthoredMeans(s: string, k: nat)
    ensures k + 1 in AuthoredLineNumbers(s) <==> InkAt(s, k)
  {
    LineInk(s, "", k);
    if k < |Lines(s)| {
      TrimInk(Lines(s)[k]);
    }
  }

  lemma {:induction false} SameNewlines(s: string, r: string, i: nat)
    requires Blanks(s, r) && i <= |s|
    ensures Newlines(r[..i]) == Newlines(s[..i])
  {
    if i > 0 {
      SameNewlines(s[1..], r[1..], i - 1);
      assert s[..i][1..] == s[1..][..i - 1] && r[..i][1..] == r[1..][..i - 1];
    }
  }

  /** Which characters of a source belong to comments. */
  function Commented(segments: seq<Segment>): seq<bool> {
    if segments == [] then []
    else seq(|SegmentText(segments[0])|, _ => IsComment(segments[0])) + Commented(segments[1..])
  }

  lemma {:induction false} BlankAt(s: string)
    ensures forall i :: 0 <= i < |s| ==> Blank(s)[i] == BlankChar(s[i])
  {
    if s != "" {
      BlankAt(s[1..]);
    }
  }

  /** The marked characters are blanked and the others kept. */
  ghost predicate BlanksMarked(s: string, r: string, marks: seq<bool>) {
    && |r| == |s| == |marks|
    && forall i :: 0 <= i < |s| ==> r[i] == if marks[i] then BlankChar(s[i]) else s[i]
  }

  lemma BlanksMarkedAppend(s: string, r: string, marks: seq<bool>, s': string, r': string, marks': seq<bool>)
    requires BlanksMarked(s, r, marks) && BlanksMarked(s', r', marks')
    ensures BlanksMarked(s + s', r + r', marks + marks')
  {
  }

  lemma {:induction false} CleanedMarked(segments: seq<Segment>)
    ensures BlanksMarked(Text(segments), Cleaned(segments), Commented(segments))
  {
    if segments != [] {
      var text, cleaned := SegmentText(segments[0]), SegmentCleaned(segments[0]);
      var marks := seq(|text|, _ => IsComment(segments[0]));
      BlankAt(text);
      assert BlanksMarked(text, cleaned, marks);
      CleanedMarked(segments[1..]);
      BlanksMarkedAppend(text, cleaned, marks, Text(segments[1..]), Cleaned(segments[1..]), Commented(segments[1..]));
    }
  }

  /** Some character outside of comments with k line feeds before it is not whitespace. */
  ghost predicate CodeAt(segments: seq<Segment>, k: nat) {
    exists i :: 0 <= i < |Text(segments)| && i < |Commented(segments)| && !Commented(segments)[i] &&
                !IsWhite(Text(segments)[i]) && Newlines(Text(segments)[..i]) == k
  }

  lemma CleanedInk(segments: seq<Segment>, k: nat)
    ensures InkAt(Cleaned(segments), k) <==> CodeAt(segments, k)
  {
    var s, r := Text(segments), Cleaned(segments);
    CleanedMarked(segments);
    assert Blanks(s, r);
    forall i | 0 <= i < |s| ensures Newlines(r[..i]) == Newlines(s[..i]) {
      SameNewlines(s, r, i);
    }
  }

  /** A line counts as authored exactly when it is not blank outside of comments, if the scan is in code at every
      comment. */
  lemma AuthoredIsCode(nested: bool, segments: seq<Segment>, k: nat)
    requires Good(nested, segments) && Clear(InCode, segments)
    ensures k + 1 in AuthoredLineNumbers(Strip(nested, InCode, Text(segments))) <==> CodeAt(segments, k)
  {
    StripSegments(nested, InCode, segments);
    AuthoredMeans(Cleaned(segments), k);
    CleanedInk(segments, k);
  }

  // ----- comments behind an odd number of lone apostrophes -----

  /** Segment i is the first comment behind an odd number of lone apostrophes. */
  predicate FirstOdd(before: nat, segments: seq<Segment>, i: nat)
    decreases i
  {
    i < |segments| &&
    if i == 0 then IsComment(segments[0]) && before % 2 == 1
    else (IsComment(segments[0]) ==> before % 2 == 0) && FirstOdd(before + Lone(segments[0]), segments[1..], i - 1)
  }

  lemma {:induction false} FirstOddExists(before: nat, segments: seq<Segment>) returns (i: nat)
    requires !EvenAtComments(before, segments)
    ensures FirstOdd(before, segments, i)
    decreases |segments|
  {
    EvenBehind(before, segments);
    if IsComment(segments[0]) && before % 2 == 1 {
      i := 0;
    } else {
      var j := FirstOddExists(before + Lone(segments[0]), segments[1..]);
      i := j + 1;
    }
  }

  lemma {:induction false} TextUpTo(segments: seq<Segment>, i: nat)
    requires i <= |segments|
    ensures Text(segments) == Text(segments[..i]) + Text(segments[i..])
  {
    if i == 0 {
      assert segments[i..] == segments;
    } else {
      var upTo := segments[..i];
      assert upTo[0] == segments[0] && upTo[1..] == segments[1..][..i - 1] && segments[1..][i - 1..] == segments[i..];
      TextUpTo(segments[1..], i - 1);
      Associate(SegmentText(segments[0]), Text(upTo[1..]), Text(segments[i..]));
    }
  }

  /** A segment read in the mode of an even or odd count. */
  lemma {:induction false} StripUsual(nested: bool, before: nat, segment: Segment, rest: string)
    requires GoodSegment(nested, segment, rest) && Usual(segment)
    requires IsComment(segment) ==> before % 2 == 0
    ensures Strip(nested, ParityMode(before), SegmentText(segment) + rest) ==
            SegmentCleaned(segment) + Strip(nested, ParityMode(before + Lone(segment)), rest)
  {
    if IsComment(segment) {
      StripOneComment(nested, segment, rest);
    } else {
      ReadUsual(nested, before, segment, rest);
      PassedText(nested, ParityMode(before), SegmentText(segment), rest);
    }
  }

  predicate SlashAt(r: string, p: nat) {
    p < |r| && r[p] == '/'
  }

  lemma {:induction false} SlashBehind(nested: bool, before: nat, segment: Segment, rest: string, p: nat)
    requires GoodSegment(nested, segment, rest) && Usual(segment)
    requires IsComment(segment) ==> before % 2 == 0
    requires SlashAt(Strip(nested, ParityMode(before + Lone(segment)), rest), p)
    ensures SlashAt(Strip(nested, ParityMode(before), SegmentText(segment) + rest), |SegmentText(segment)| + p)
  {
    StripUsual(nested, before, segment, rest);
  }

  lemma {:induction false} TextBehind(segments: seq<Segment>, i: nat)
    requires 0 < i <= |segments|
    ensures Text(segments[..i]) == SegmentText(segments[0]) + Text(segments[1..][..i - 1])
  {
    assert segments[..i][0] == segments[0] && segments[..i][1..] == segments[1..][..i - 1];
  }

  lemma {:induction false} SlashMissed(nested: bool, before: nat, segment: Segment, rest: string)
    requires IsComment(segment) && before % 2 == 1
    ensures SlashAt(Strip(nested, ParityMode(before), SegmentText(segment) + rest), 0)
  {
    MissedComment(nested, ParityMode(before), segment, rest);
  }

  lemma {:induction false} UsualBehind(nested: bool, segments: seq<Segment>)
    requires segments != [] && Good(nested, segments) && AllUsual(segments)
    ensures GoodSegment(nested, segments[0], Text(segments[1..])) && Usual(segments[0])
    ensures Good(nested, segments[1..]) && AllUsual(segments[1..])
  {
  }

  lemma {:induction false} TextOfFirst(segments: seq<Segment>)
    requires segments != []
    ensures Text(segments) == SegmentText(segments[0]) + Text(segments[1..])
  {
  }

  /** That comment's first slash is kept. */
  lemma {:induction false} OddCommentKept(nested: bool, before: nat, segments: seq<Segment>, i: nat)
    requires Good(nested, segments) && AllUsual(segments) && FirstOdd(before, segments, i)
    ensures SlashAt(Strip(nested, ParityMode(before), Text(segments)), |Text(segments[..i])|)
    decreases i
  {
    hide Strip, Usual, GoodSegment;
    var segment, rest := segments[0], segments[1..];
    UsualBehind(nested, segments);
    TextOfFirst(segments);
    if i == 0 {
      SlashMissed(nested, before, segment, Text(rest));
      assert segments[..0] == [];
    } else {
      OddCommentKept(nested, before + Lone(segment), rest, i - 1);
      SlashBehind(nested, before, segment, Text(rest), |Text(rest[..i - 1])|);
      TextBehind(segments, i);
    }
  }

  lemma {:induction false} SlashLine(nested: bool, before: string, behind: string)
    requires SlashAt(Strip(nested, InCode, before + behind), |before|)
    ensures Newlines(before) + 1 in AuthoredLineNumbers(Strip(nested, InCode, before + behind))
  {
    var r, p := Strip(nested, InCode, before + behind), |before|;
    StripKeepsPositions(nested, InCode, before + behind);
    SameNewlines(before + behind, r, p);
    assert (before + behind)[..p] == before;
    assert InkAt(r, Newlines(r[..p]));
    AuthoredMeans(r, Newlines(before));
  }

  /** The line where that comment starts counts as authored, whatever it holds outside of comments. */
  lemma {:induction false} OddCommentAuthored(nested: bool, segments: seq<Segment>, i: nat)
    requires Good(nested, segments) && AllUsual(segments) && FirstOdd(0, segments, i)
    ensures Newlines(Text(segments[..i])) + 1 in AuthoredLineNumbers(Strip(nested, InCode, Text(segments)))
  {
    hide Good, AllUsual, Strip, Text, AuthoredLineNumbers, Newlines;
    OddCommentKept(nested, 0, segments, i);
    TextUpTo(segments, i);
    SlashLine(nested, Text(segments[..i]), Text(segments[i..]));
  }

  /** No comment starts on a line that holds code. */
  ghost predicate CommentsAlone(segments: seq<Segment>) {
    forall i :: 0 <= i < |segments| && IsComment(segments[i]) ==> !CodeAt(segments, Newlines(Text(segments[..i])))
  }

  ghost predicate CountsCode(nested: bool, segments: seq<Segment>) {
    forall k: nat :: k + 1 in AuthoredLineNumbers(Strip(nested, InCode, Text(segments))) <==> CodeAt(segments, k)
  }

  /** Where comments have lines of their own, the lines that count are the lines with code if and only if every
      comment is behind an even number of lone apostrophes. */
  lemma {:induction false} AuthoredByParity(nested: bool, segments: seq<Segment>)
    requires Good(nested, segments) && AllUsual(segments) && CommentsAlone(segments)
    ensures CountsCode(nested, segments) <==> EvenAtComments(0, segments)
  {
    hide Good, AllUsual, EvenAtComments, CodeAt, Strip, Text, AuthoredLineNumbers, Newlines;
    if EvenAtComments(0, segments) {
      ClearByParity(nested, 0, segments);
      forall k: nat
        ensures k + 1 in AuthoredLineNumbers(Strip(nested, InCode, Text(segments))) <==> CodeAt(segments, k)
      {
        AuthoredIsCode(nested, segments, k);
      }
    } else {
      var i := FirstOddExists(0, segments);
      OddCommentAuthored(nested, segments, i);
      FirstOddIsComment(0, segments, i);
      assert !CodeAt(segments, Newlines(Text(segments[..i])));
    }
  }

  lemma {:induction false} FirstOddIsComment(before: nat, segments: seq<Segment>, i: nat)
    requires FirstOdd(before, segments, i)
    ensures i < |segments| && IsComment(segments[i])
    decreases i
  {
    if i > 0 {
      FirstOddIsComment(before + Lone(segments[0]), segments[1..], i - 1);
    }
  }
}
