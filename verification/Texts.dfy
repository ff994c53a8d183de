/** Whitespace, trimming and lines, as the standard library of Rust has them. */
module Texts {
  /** The Unicode White_Space characters, which trimming removes. */
  predicate IsWhite(c: char) {
    var n := c as int;
    || 9 <= n <= 13 || n == 32 || n == 0x85 || n == 0xA0 || n == 0x1680 || 0x2000 <= n <= 0x200A
    || n == 0x2028 || n == 0x2029 || n == 0x202F || n == 0x205F || n == 0x3000
  }

  function TrimStart(s: string): (r: string)
    ensures r == "" || !IsWhite(r[0])
    ensures r == s <==> s == "" || !IsWhite(s[0])
    ensures |r| <= |s|
  {
    if s != "" && IsWhite(s[0]) then TrimStart(s[1..]) else s
  }

  function TrimEnd(s: string): (r: string)
    ensures r == "" || !IsWhite(r[|r| - 1])
    ensures r == s <==> s == "" || !IsWhite(s[|s| - 1])
    ensures |r| <= |s| && r == s[..|r|]
  {
    if s != "" && IsWhite(s[|s| - 1]) then TrimEnd(s[..|s| - 1]) else s
  }

  function Trim(s: string): string {
    TrimEnd(TrimStart(s))
  }

  /** Not empty and without surrounding whitespace. */
  predicate Trimmed(s: string) {
    s != "" && !IsWhite(s[0]) && !IsWhite(s[|s| - 1])
  }

  /** Exactly the texts that trimming leaves alone and that are not empty. */
  lemma TrimmedMeans(s: string)
    ensures Trimmed(s) <==> Trim(s) != "" && Trim(s) == s
  {
    var t := TrimStart(s);
    if Trim(s) == s {
      assert |Trim(s)| <= |t| <= |s|;
      assert |t| == |s|;
      TrimStartLength(s);
    }
  }

  lemma {:induction false} TrimStartLength(s: string)
    ensures |TrimStart(s)| == |s| ==> TrimStart(s) == s
  {
  }

  /** Trimming leaves trimmed text, or nothing. */
  lemma TrimIsTrimmed(s: string)
    requires Trim(s) != ""
    ensures Trimmed(Trim(s))
  {
  }

  // ----- messages put together from parts -----

  /** Starts with something else than whitespace. */
  predicate Headed(s: string) {
    s != "" && !IsWhite(s[0])
  }

  lemma TrimmedEnd(start: string, end: string)
    requires Headed(start) && end != ""
    ensures Headed(start + end)
    ensures Trimmed(start + end) <==> !IsWhite(end[|end| - 1])
  {
    var s := start + end;
    assert s[0] == start[0] && s[|s| - 1] == end[|end| - 1];
  }

  lemma HeadedStart(start: string, more: string)
    requires Headed(start)
    ensures Headed(start + more)
  {
    assert (start + more)[0] == start[0];
  }

  lemma SolidEnd(start: string, end: string)
    requires Headed(start) && end != "" && !IsWhite(end[|end| - 1])
    ensures Headed(start + end) && Trimmed(start + end)
  {
    TrimmedEnd(start, end);
  }

  lemma QuotedEnd(start: string, a: string, middle: string, b: string)
    requires Headed(start)
    ensures Headed(start + a + middle + b + "`") && Trimmed(start + a + middle + b + "`")
  {
    hide Headed, Trimmed;
    HeadedStart(start, a);
    HeadedStart(start + a, middle);
    HeadedStart(start + a + middle, b);
    SolidEnd(start + a + middle + b, "`");
  }

  lemma TrimmedSolid(s: string)
    requires Trimmed(s)
    ensures s != "" && !IsWhite(s[|s| - 1])
  {
  }

  lemma TrimmedIsHeaded(s: string)
    requires Trimmed(s)
    ensures Headed(s)
  {
  }

  // ----- lines -----

  /** The lines of a text; a line feed, or a carriage return before one, ends a line. */
  function Lines(s: string): seq<string> {
    LinesFrom(s, "")
  }

  function LinesFrom(s: string, current: string): seq<string> {
    if s == "" then (if current == "" then [] else [current])
    else if s[0] == '\n' then [DropReturn(current)] + LinesFrom(s[1..], "")
    else LinesFrom(s[1..], current + [s[0]])
  }

  function DropReturn(s: string): string {
    if s != "" && s[|s| - 1] == '\r' then s[..|s| - 1] else s
  }

  // ----- parts between separators -----

  function SplitOn(s: string, c: char): (parts: seq<string>)
    ensures |parts| >= 1
  {
    if s == "" then [""]
    else
      var rest := SplitOn(s[1..], c);
      if s[0] == c then [""] + rest else [[s[0]] + rest[0]] + rest[1..]
  }

  /** The parts with the separator between each two. */
  function JoinedBy(parts: seq<string>, c: char): string {
    if parts == [] then "" else if |parts| == 1 then parts[0] else parts[0] + [c] + JoinedBy(parts[1..], c)
  }

  lemma {:induction false} SplitPlain(s: string, c: char)
    requires c !in s
    ensures SplitOn(s, c) == [s]
  {
    if s != "" {
      assert s == [s[0]] + s[1..];
      SplitPlain(s[1..], c);
    }
  }

  lemma {:induction false} SplitFront(first: string, rest: string, c: char)
    requires c !in first
    ensures SplitOn(first + [c] + rest, c) == [first] + SplitOn(rest, c)
  {
    var s := first + [c] + rest;
    if first == "" {
      assert s[1..] == rest;
    } else {
      assert first == [first[0]] + first[1..];
      assert s[1..] == first[1..] + [c] + rest;
      SplitFront(first[1..], rest, c);
    }
  }

  lemma SplitTwo(a: string, b: string, c: char)
    requires c !in a && c !in b
    ensures SplitOn(a + [c] + b, c) == [a, b]
  {
    SplitFront(a, b, c);
    SplitPlain(b, c);
  }

  /** Splitting undoes joining parts that do not hold the separator. */
  lemma {:induction false} SplitJoined(parts: seq<string>, c: char)
    requires parts != [] && forall i :: 0 <= i < |parts| ==> c !in parts[i]
    ensures SplitOn(JoinedBy(parts, c), c) == parts
  {
    if |parts| == 1 {
      SplitPlain(parts[0], c);
    } else {
      SplitJoined(parts[1..], c);
      SplitFront(parts[0], JoinedBy(parts[1..], c), c);
      assert parts == [parts[0]] + parts[1..];
    }
  }
}
