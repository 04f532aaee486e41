/** The few string operations of Rust's `str` that the modelled code relies on.
    A string is a sequence of Unicode scalar values, as `str::chars` yields them. */
module Text {
  import opened Wrappers

  /** The Unicode `White_Space` property, which `char::is_whitespace` answers. */
  predicate IsWhitespace(c: char) {
    var n := c as int;
    || 9 <= n <= 13 || n == 32 || n == 0x85 || n == 0xA0 || n == 0x1680
    || 0x2000 <= n <= 0x200A || n == 0x2028 || n == 0x2029 || n == 0x202F
    || n == 0x205F || n == 0x3000
  }

  predicate AllWhitespace(s: string) {
    forall i :: 0 <= i < |s| ==> IsWhitespace(s[i])
  }

  predicate IsAscii(s: string) {
    forall i :: 0 <= i < |s| ==> s[i] as int < 128
  }

  /** `str::trim_start` */
  function TrimStart(s: string): (r: string)
    ensures |r| <= |s|
    ensures r != "" ==> !IsWhitespace(r[0])
  {
    if s != "" && IsWhitespace(s[0]) then TrimStart(s[1..]) else s
  }

  /** `str::trim_end` */
  function TrimEnd(s: string): (r: string)
    ensures |r| <= |s|
    ensures r != "" ==> !IsWhitespace(r[|r| - 1])
  {
    if s != "" && IsWhitespace(s[|s| - 1]) then TrimEnd(s[..|s| - 1]) else s
  }

  /** `str::trim` */
  function Trim(s: string): string {
    TrimEnd(TrimStart(s))
  }

  /** Where `c` first stands in `s`, or `|s|`. */
  function IndexOf(s: string, c: char): (n: nat)
    ensures n <= |s|
  {
    if s == "" || s[0] == c then 0 else IndexOf(s[1..], c) + 1
  }

  /** `str::split_once`, at a single character. */
  function SplitOnce(s: string, c: char): Option<(string, string)> {
    var n := IndexOf(s, c);
    if n == |s| then None else Some((s[..n], s[n + 1..]))
  }

  function DropLast(s: string): string
    requires s != ""
  {
    s[..|s| - 1]
  }

  /** One trailing carriage return off, if there is one. */
  function StripCr(s: string): string {
    if s != "" && s[|s| - 1] == '\r' then DropLast(s) else s
  }

  /** `str::lines`: split after each line feed, which goes together with one
      carriage return before it; a last piece with no line feed is a line as it
      is, and an empty last piece is no line. */
  function Lines(s: string): seq<string>
    decreases |s|
  {
    var n := IndexOf(s, '\n');
    if n == |s| then (if s == "" then [] else [s])
    else [StripCr(s[..n])] + Lines(s[n + 1..])
  }

  function ToLower(c: char): char {
    if 'A' <= c <= 'Z' then (c as int + 32) as char else c
  }

  /** One letter, or two of which one is the ASCII capital of the other. */
  predicate SameLetter(a: char, b: char) {
    || a == b
    || ('A' <= a <= 'Z' && b as int == a as int + 32)
    || ('A' <= b <= 'Z' && a as int == b as int + 32)
  }

  predicate SameButCase(a: string, b: string) {
    |a| == |b| && forall i :: 0 <= i < |a| ==> SameLetter(a[i], b[i])
  }

  /** `str::eq_ignore_ascii_case` */
  predicate EqIgnoreAsciiCase(a: string, b: string): (same: bool)
    ensures same <==> SameButCase(a, b)
  {
    |a| == |b| && forall i :: 0 <= i < |a| ==> ToLower(a[i]) == ToLower(b[i])
  }

  predicate StartsWith(s: string, prefix: string) {
    |prefix| <= |s| && s[..|prefix|] == prefix
  }

  /** What `trim_start` takes off is whitespace. */
  lemma {:induction false} TrimStartSplit(s: string) returns (lead: string)
    ensures AllWhitespace(lead) && s == lead + TrimStart(s)
  {
    if s != "" && IsWhitespace(s[0]) {
      var more := TrimStartSplit(s[1..]);
      lead := [s[0]] + more;
      assert s == [s[0]] + s[1..];
    } else {
      lead := "";
    }
  }

  lemma {:induction false} IndexOfFirst(s: string, c: char)
    ensures c !in s[..IndexOf(s, c)]
    ensures IndexOf(s, c) < |s| ==> s[IndexOf(s, c)] == c
  {
    if s != "" && s[0] != c {
      IndexOfFirst(s[1..], c);
      var n := IndexOf(s[1..], c);
      assert s[..n + 1] == [s[0]] + s[1..][..n];
    }
  }

  lemma SplitOnceSplits(s: string, c: char)
    ensures SplitOnce(s, c).None? <==> c !in s
    ensures match SplitOnce(s, c)
            case None => true
            case Some((before, after)) => s == before + [c] + after && c !in before
  {
    IndexOfFirst(s, c);
    var n := IndexOf(s, c);
    if n == |s| {
      assert s[..n] == s;
    } else {
      assert s == s[..n] + [s[n]] + s[n + 1..];
    }
  }

  lemma {:induction false} IndexOfConcat(a: string, c: char, b: string)
    requires c !in a
    ensures IndexOf(a + [c] + b, c) == |a|
  {
    if a != "" {
      assert (a + [c] + b)[1..] == a[1..] + [c] + b;
      IndexOfConcat(a[1..], c, b);
    }
  }

  lemma SplitOnceConcat(a: string, c: char, b: string)
    requires c !in a
    ensures SplitOnce(a + [c] + b, c) == Some((a, b))
  {
    IndexOfConcat(a, c, b);
    var s := a + [c] + b;
    assert s[..|a|] == a && s[|a| + 1..] == b;
  }

  lemma LinesCons(a: string, b: string)
    requires '\n' !in a
    ensures Lines(a + "\n" + b) == [StripCr(a)] + Lines(b)
  {
    IndexOfConcat(a, '\n', b);
    var s := a + "\n" + b;
    assert s[..|a|] == a && s[|a| + 1..] == b;
  }

  lemma {:induction false} TrimStartUnique(ws: string, s: string)
    requires AllWhitespace(ws)
    requires s == "" || !IsWhitespace(s[0])
    ensures TrimStart(ws + s) == s
  {
    if ws == "" {
      assert ws + s == s;
    } else {
      assert (ws + s)[1..] == ws[1..] + s;
      TrimStartUnique(ws[1..], s);
    }
  }

  lemma {:induction false} TrimEndUnique(s: string, ws: string)
    requires AllWhitespace(ws)
    requires s == "" || !IsWhitespace(s[|s| - 1])
    ensures TrimEnd(s + ws) == s
  {
    if ws == "" {
      assert s + ws == s;
    } else {
      assert (s + ws)[..|s + ws| - 1] == s + DropLast(ws);
      TrimEndUnique(s, DropLast(ws));
    }
  }

  lemma {:induction false} TrimEndIsPrefix(s: string)
    ensures TrimEnd(s) <= s
  {
    if s != "" && IsWhitespace(s[|s| - 1]) {
      TrimEndIsPrefix(DropLast(s));
    }
  }

  lemma Regroup(a: string, b: string, c: string)
    ensures a + (b + c) == a + b + c
  {
  }

  lemma TrimIdentity(s: string)
    requires s != "" && !IsWhitespace(s[0]) && !IsWhitespace(s[|s| - 1])
    ensures Trim(s) == s
  {
  }

  lemma EqualToAscii(a: string, b: string)
    requires EqIgnoreAsciiCase(a, b) && IsAscii(b)
    ensures IsAscii(a)
  {
    forall i | 0 <= i < |a| ensures a[i] as int < 128 {
      assert ToLower(a[i]) == ToLower(b[i]);
    }
  }

  lemma EqIgnoreAsciiCaseRefl(a: string)
    ensures EqIgnoreAsciiCase(a, a)
  {
  }

  // ------------------------------------------------------ what the pieces are

  /** The code points with the Unicode `White_Space` property. */
  const WHITE_SPACE: set<int> := {
    0x09, 0x0A, 0x0B, 0x0C, 0x0D, 0x20, 0x85, 0xA0, 0x1680, 0x2000, 0x2001, 0x2002, 0x2003,
    0x2004, 0x2005, 0x2006, 0x2007, 0x2008, 0x2009, 0x200A, 0x2028, 0x2029, 0x202F, 0x205F,
    0x3000}

  lemma WhitespaceExactly(c: char)
    ensures IsWhitespace(c) <==> c as int in WHITE_SPACE
  {
  }

  /** `line` is `body`, which neither starts nor ends with whitespace, between
      whitespace. */
  ghost predicate Padded(line: string, body: string) {
    && (body == "" || (!IsWhitespace(body[0]) && !IsWhitespace(body[|body| - 1])))
    && exists lead, tail :: AllWhitespace(lead) && AllWhitespace(tail) && line == lead + body + tail
  }

  lemma {:induction false} TrimEndSplit(s: string) returns (tail: string)
    ensures AllWhitespace(tail) && s == TrimEnd(s) + tail
  {
    if s != "" && IsWhitespace(s[|s| - 1]) {
      var more := TrimEndSplit(DropLast(s));
      tail := more + [s[|s| - 1]];
      assert s == DropLast(s) + [s[|s| - 1]];
    } else {
      tail := "";
    }
  }

  lemma TrimExactly(line: string, body: string)
    ensures Trim(line) == body <==> Padded(line, body)
  {
    if Trim(line) == body {
      var lead := TrimStartSplit(line);
      var tail := TrimEndSplit(TrimStart(line));
      TrimEndIsPrefix(TrimStart(line));
      assert line == lead + body + tail;
    }
    if Padded(line, body) {
      var lead, tail :| AllWhitespace(lead) && AllWhitespace(tail) && line == lead + body + tail;
      if body == "" {
        assert line == (lead + tail) + "";
        TrimStartUnique(lead + tail, "");
      } else {
        assert line == lead + (body + tail);
        TrimStartUnique(lead, body + tail);
        TrimEndUnique(body, tail);
      }
    }
  }

  /** The text of lines each ended by a line feed, and of what comes after. */
  function Ended(lines: seq<string>, last: string): string {
    if lines == [] then last else lines[0] + "\n" + Ended(lines[1..], last)
  }

  function WithoutOneCr(line: string): string {
    if line != "" && line[|line| - 1] == '\r' then line[..|line| - 1] else line
  }

  predicate OneLine(s: string) {
    '\n' !in s
  }

  /** These lines, each without the carriage return it ends with, and the last text
      as it is unless it is empty. */
  predicate SplitInto(lines: seq<string>, last: string, all: seq<string>) {
    && |all| == |lines| + (if last == "" then 0 else 1)
    && (forall i :: 0 <= i < |lines| ==> all[i] == WithoutOneCr(lines[i]))
    && (last != "" ==> all[|lines|] == last)
  }

  lemma SplitIntoCons(line: string, lines: seq<string>, last: string, all: seq<string>)
    requires SplitInto(lines, last, all)
    ensures SplitInto([line] + lines, last, [WithoutOneCr(line)] + all)
  {
  }

  /** Split and joined: every text is so many lines and what comes after them, and
      is split into just these. */
  lemma {:induction false} LinesExactly(lines: seq<string>, last: string)
    requires OneLine(last) && forall i :: 0 <= i < |lines| ==> OneLine(lines[i])
    ensures SplitInto(lines, last, Lines(Ended(lines, last)))
  {
    if lines == [] {
      SplitOnceSplits(last, '\n');
    } else {
      LinesExactly(lines[1..], last);
      LinesCons(lines[0], Ended(lines[1..], last));
      SplitIntoCons(lines[0], lines[1..], last, Lines(Ended(lines[1..], last)));
      assert lines == [lines[0]] + lines[1..];
    }
  }

  lemma {:induction false} EveryTextIsLines(s: string) returns (lines: seq<string>, last: string)
    ensures OneLine(last) && forall i :: 0 <= i < |lines| ==> OneLine(lines[i])
    ensures s == Ended(lines, last)
  {
    SplitOnceSplits(s, '\n');
    match SplitOnce(s, '\n') {
      case None =>
        lines, last := [], s;
      case Some((line, rest)) =>
        lines, last := EveryTextIsLines(rest);
        assert ([line] + lines)[1..] == lines;
        lines := [line] + lines;
    }
  }
}
