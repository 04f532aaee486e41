/** What `reg_query_path` reads out of any output at all, said of its lines: which
    line is the value's, and what that line gives. */
module RegQueryMeaning {
  import opened Wrappers
  import opened Text
  import opened Octets
  import opened RegQuery

  // ----------------------------------------------------------- the value's line

  /** `Path` after whitespace, and more whitespace after it. */
  ghost predicate NamesPath(text: string, after: string) {
    && after != "" && IsWhitespace(after[0])
    && exists lead :: AllWhitespace(lead) && text == lead + "Path" + after
  }

  lemma AfterNameExactly(head: string, after: string)
    ensures AfterName(head) == Some(after) <==> NamesPath(head, after)
  {
    if AfterName(head) == Some(after) {
      var lead := TrimStartSplit(head);
      assert TrimStart(head) == "Path" + after;
      assert head == lead + "Path" + after;
    }
    if NamesPath(head, after) {
      var lead :| AllWhitespace(lead) && head == lead + "Path" + after;
      NamedAfter(lead, "Path", after);
    }
  }

  lemma NamedAfter(lead: string, name: string, after: string)
    requires AllWhitespace(lead) && name == "Path" && after != "" && IsWhitespace(after[0])
    ensures AfterName(lead + name + after) == Some(after)
  {
    var line := name + after;
    assert lead + name + after == lead + line;
    TrimStartUnique(lead, line);
    assert line[..4] == name && line[4..] == after;
  }

  /** Whitespace, a type without any in it, more whitespace, and the value, which
      does not start with it; what is missing is empty. */
  ghost predicate Typed(after: string, ty: string, value: string) {
    exists gap, sep :: TypedBy(after, ty, value, gap, sep)
  }

  predicate TypedBy(after: string, ty: string, value: string, gap: string, sep: string) {
    && after == gap + ty + sep + value && AllWhitespace(gap) && AllWhitespace(sep)
    && (forall i :: 0 <= i < |ty| ==> !IsWhitespace(ty[i]))
    && (ty == "" ==> sep == "" && value == "") && (sep == "" ==> value == "")
    && (value != "" ==> !IsWhitespace(value[0]))
  }

  lemma OneMore(c: char, ty: string, sep: string, value: string, s: string)
    requires s != "" && s[0] == c && s[1..] == ty + sep + value
    ensures s == "" + ([c] + ty) + sep + value
  {
    assert s == [s[0]] + s[1..];
  }

  lemma TypeEnds(s: string) returns (sep: string)
    requires s != "" && !IsWhitespace(s[0]) && (|s| > 1 ==> IsWhitespace(s[1]))
    ensures var (ty, more) := SplitAtWhitespace(s); TypedBy(s, ty, TrimStart(more), "", sep)
  {
    var rest := s[1..];
    sep := TrimStartSplit(rest);
    assert SplitAtWhitespace(rest) == ("", if rest == "" then "" else rest[1..]);
    assert [s[0]] + "" == [s[0]];
    OneMore(s[0], "", sep, TrimStart(rest), s);
  }

  lemma {:induction false} SplitUnfolds(s: string) returns (sep: string)
    requires s == "" || !IsWhitespace(s[0])
    ensures var (ty, more) := SplitAtWhitespace(s); TypedBy(s, ty, TrimStart(more), "", sep)
    decreases |s|
  {
    if s == "" {
      sep := "";
    } else if |s| > 1 && !IsWhitespace(s[1]) {
      sep := SplitUnfolds(s[1..]);
      var (ty, more) := SplitAtWhitespace(s[1..]);
      OneMore(s[0], ty, sep, TrimStart(more), s);
    } else {
      sep := TypeEnds(s);
    }
  }

  lemma TypedIsSplit(after: string, ty: string, value: string, gap: string, sep: string)
    requires TypedBy(after, ty, value, gap, sep)
    ensures SplitAtWhitespace(TrimStart(after)).0 == ty
    ensures TrimStart(SplitAtWhitespace(TrimStart(after)).1) == value
  {
    assert after == gap + (ty + (sep + value));
    if ty == "" {
      assert after == gap + "";
    }
    TrimStartUnique(gap, ty + (sep + value));
    if sep == "" {
      assert ty + (sep + value) == ty;
      NothingSplit(ty);
    } else {
      SplitAtFirst(ty, sep, value);
      TrimStartUnique(sep[1..], value);
    }
  }

  lemma {:induction false} NothingSplit(ty: string)
    requires forall i :: 0 <= i < |ty| ==> !IsWhitespace(ty[i])
    ensures SplitAtWhitespace(ty) == (ty, "")
  {
    if ty != "" {
      NothingSplit(ty[1..]);
      assert ty == [ty[0]] + ty[1..];
    }
  }

  /** What a type and a value give. */
  function Given(ty: string, value: string): Reading {
    if ty != "REG_SZ" then Other(StoredAs(ty))
    else if value == "" then Other(NoPath)
    else Plain(value)
  }

  lemma SplitIsTyped(after: string)
    ensures var (ty, more) := SplitAtWhitespace(TrimStart(after)); Typed(after, ty, TrimStart(more))
  {
    var gap := TrimStartSplit(after);
    var sep := SplitUnfolds(TrimStart(after));
    var (ty, more) := SplitAtWhitespace(TrimStart(after));
    AfterGap(after, gap, TrimStart(after), ty, TrimStart(more), sep);
  }

  lemma AfterGap(after: string, gap: string, s: string, ty: string, value: string, sep: string)
    requires after == gap + s && AllWhitespace(gap) && TypedBy(s, ty, value, "", sep)
    ensures Typed(after, ty, value)
  {
    assert s == ty + sep + value;
    assert gap + (ty + sep + value) == gap + ty + sep + value;
    assert TypedBy(after, ty, value, gap, sep);
  }

  lemma TypeAndValueExactly(after: string, ty: string, value: string)
    ensures Typed(after, ty, value)
       <==> SplitAtWhitespace(TrimStart(after)).0 == ty
            && TrimStart(SplitAtWhitespace(TrimStart(after)).1) == value
    ensures Typed(after, ty, value) ==> TypeAndValue(after) == Given(ty, value)
  {
    if gap, sep :| TypedBy(after, ty, value, gap, sep) {
      TypedIsSplit(after, ty, value, gap, sep);
    }
    SplitIsTyped(after);
  }

  /** The bytes before the first that is not ASCII. */
  predicate CutAt(line: Bytes, ascii: Bytes) {
    && ascii <= line && (forall i :: 0 <= i < |ascii| ==> ascii[i] < 128)
    && (|ascii| < |line| ==> line[|ascii|] >= 128)
  }

  lemma {:induction false} AsciiPrefixExactly(line: Bytes, ascii: Bytes)
    ensures AsciiPrefix(line) == ascii <==> CutAt(line, ascii)
  {
    if line != [] && line[0] < 128 && ascii != [] {
      AsciiPrefixExactly(line[1..], ascii[1..]);
      assert ascii == [ascii[0]] + ascii[1..] && line == [line[0]] + line[1..];
      if CutAt(line, ascii) {
        assert ascii[1..] <= line[1..];
      }
    }
  }

  /** One trailing carriage return off, where there is one. */
  predicate WithoutCr(s: string, t: string) {
    s == t + "\r" || (s == t && (t == "" || t[|t| - 1] != '\r'))
  }

  lemma StripCrExactly(s: string, t: string)
    ensures StripCr(s) == t <==> WithoutCr(s, t)
  {
    if StripCr(s) == t && s != t {
      assert s == DropLast(s) + "\r";
    }
    if s == t + "\r" {
      assert DropLast(s) == t;
    }
  }

  /** The line is that of the value, which is `whole` if nothing of it follows. */
  ghost predicate LineGives(line: Bytes, whole: bool, reading: Reading) {
    exists ascii, text, after :: LineGivesBy(line, whole, reading, ascii, text, after)
  }

  ghost predicate LineGivesBy(line: Bytes, whole: bool, reading: Reading,
                              ascii: Bytes, text: string, after: string)
  {
    && CutAt(line, ascii) && WithoutCr(Decode(ascii), text) && NamesPath(text, after)
    && if !whole then reading == Other(LineBreak)
       else if ascii != line then reading == Other(NonAscii)
       else exists ty, value :: Typed(after, ty, value) && reading == Given(ty, value)
  }

  lemma ReadLineExactly(line: Bytes, whole: bool, reading: Reading)
    ensures ReadLine(line, whole) == Some(reading) <==> LineGives(line, whole, reading)
  {
    var ascii := AsciiPrefix(line);
    var text := StripCr(Decode(ascii));
    AsciiPrefixExactly(line, ascii);
    StripCrExactly(Decode(ascii), text);
    if AfterName(text).Some? {
      var after := AfterName(text).value;
      AfterNameExactly(text, after);
      var (ty, more) := SplitAtWhitespace(TrimStart(after));
      TypeAndValueExactly(after, ty, TrimStart(more));
      if ReadLine(line, whole) == Some(reading) {
        assert LineGivesBy(line, whole, reading, ascii, text, after);
      }
    }
    if a, t, after :| LineGivesBy(line, whole, reading, a, t, after) {
      AsciiPrefixExactly(line, a);
      StripCrExactly(Decode(a), t);
      AfterNameExactly(t, after);
      if whole && a == line {
        var ty, value :| Typed(after, ty, value) && reading == Given(ty, value);
        TypeAndValueExactly(after, ty, value);
      }
    }
  }

  // ------------------------------------------------------------- the whole output

  /** The lines, joined by line feeds. */
  function Joined(lines: seq<Bytes>): Bytes {
    if lines == [] then []
    else if |lines| == 1 then lines[0]
    else lines[0] + [LF] + Joined(lines[1..])
  }

  lemma {:induction false} LineFeedFirst(bs: Bytes)
    ensures LF !in bs[..IndexOfLf(bs)]
    ensures IndexOfLf(bs) < |bs| ==> bs[IndexOfLf(bs)] == LF
  {
    if bs != [] && bs[0] != LF {
      LineFeedFirst(bs[1..]);
      var n := IndexOfLf(bs[1..]);
      assert bs[..n + 1] == [bs[0]] + bs[1..][..n];
    }
  }

  lemma {:induction false} ChunksExactly(bs: Bytes)
    ensures Joined(Chunks(bs)) == bs
    ensures forall i :: 0 <= i < |Chunks(bs)| ==> LF !in Chunks(bs)[i]
    decreases |bs|
  {
    var n := IndexOfLf(bs);
    LineFeedFirst(bs);
    if n == |bs| {
      NoMoreChunks(bs);
      assert bs[..n] == bs;
    } else {
      MoreChunks(bs, n, bs[..n], bs[n + 1..]);
      ChunksExactly(bs[n + 1..]);
      AndMore(Chunks(bs), bs[..n], Chunks(bs[n + 1..]));
      assert bs == bs[..n] + [LF] + bs[n + 1..];
    }
  }

  /** Nothing follows, or one line feed, or wine's blank line and one. */
  predicate IsLast(more: seq<Bytes>) {
    more == [] || more == [[]] || more == [[CR], []]
  }

  lemma NothingFollowsExactly(bs: Bytes)
    ensures NothingFollows(AfterFirst(bs)) <==> IsLast(Chunks(bs)[1..])
  {
    var n := IndexOfLf(bs);
    if n == |bs| {
      NoMoreChunks(bs);
    } else {
      MoreChunks(bs, n, bs[..n], bs[n + 1..]);
      AndMore(Chunks(bs), bs[..n], Chunks(bs[n + 1..]));
      LastLines(bs[n + 1..]);
    }
  }

  lemma JoinedTwo(a: Bytes, b: Bytes, two: seq<Bytes>)
    requires two == [a, b]
    ensures Joined(two) == a + [LF] + b
  {
    assert two[1..] == [b];
  }

  lemma BlankLineChunks(rest: Bytes)
    requires rest == [CR, LF]
    ensures Chunks(rest) == [[CR], []]
  {
    assert IndexOfLf(rest[1..]) == 0 && IndexOfLf(rest) == 1;
    MoreChunks(rest, 1, rest[..1], rest[2..]);
    assert rest[..1] == [CR] && rest[2..] == [];
    NoMoreChunks([]);
  }

  lemma LastLines(rest: Bytes)
    ensures NothingFollows(rest) <==> IsLast(Chunks(rest))
  {
    ChunksExactly(rest);
    if rest == [] {
      NoMoreChunks(rest);
    } else if rest == [CR, LF] {
      BlankLineChunks(rest);
    }
    if Chunks(rest) == [[CR], []] {
      JoinedTwo([CR], [], Chunks(rest));
    }
  }

  ghost predicate ValueLine(line: Bytes) {
    exists reading :: LineGives(line, false, reading)
  }

  lemma ValueLineExactly(line: Bytes, whole: bool)
    ensures ValueLine(line) <==> ReadLine(line, whole).Some?
  {
    if ReadLine(line, whole).Some? {
      ReadLineExactly(line, false, ReadLine(line, false).value);
    }
    if reading :| LineGives(line, false, reading) {
      ReadLineExactly(line, false, reading);
    }
  }

  /** `line` is the first of the lines that is a value's, and `more` follows it. */
  ghost predicate FirstValueLine(lines: seq<Bytes>, i: nat) {
    i < |lines| && ValueLine(lines[i]) && forall j :: 0 <= j < i ==> !ValueLine(lines[j])
  }

  /** Of any output: an absence if none of its lines is a value's, and otherwise
      what the first that is gives, whole if it is the last but for what wine ends
      its output with. */
  ghost predicate Reads(lines: seq<Bytes>, reading: Reading) {
    && ((forall i :: 0 <= i < |lines| ==> !ValueLine(lines[i])) ==> reading == Absent)
    && forall i: nat :: FirstValueLine(lines, i) ==> LineGives(lines[i], IsLast(lines[i + 1..]), reading)
  }

  lemma {:induction false} RegQueryReads(bs: Bytes)
    ensures Reads(Chunks(bs), RegQueryPath(bs))
    decreases |bs|
  {
    var chunks, rest := Chunks(bs), AfterFirst(bs);
    var whole := NothingFollows(rest);
    FirstChunk(bs);
    FirstChunkLies(bs);
    NothingFollowsExactly(bs);
    ValueLineExactly(chunks[0], whole);
    if ReadLine(chunks[0], whole).Some? {
      ReadLineExactly(chunks[0], whole, RegQueryPath(bs));
      forall i: nat | FirstValueLine(chunks, i)
        ensures LineGives(chunks[i], IsLast(chunks[i + 1..]), RegQueryPath(bs))
      {
        assert i == 0;
      }
    } else if |chunks| > 1 {
      RegQueryReads(rest);
      ReadsLater(chunks, RegQueryPath(rest));
    }
  }

  lemma ReadsLater(chunks: seq<Bytes>, reading: Reading)
    requires chunks != [] && !ValueLine(chunks[0]) && Reads(chunks[1..], reading)
    ensures Reads(chunks, reading)
  {
    var more := chunks[1..];
    if forall i :: 0 <= i < |chunks| ==> !ValueLine(chunks[i]) {
      assert forall i :: 0 <= i < |more| ==> more[i] == chunks[i + 1];
    }
    forall i: nat | FirstValueLine(chunks, i)
      ensures LineGives(chunks[i], IsLast(chunks[i + 1..]), reading)
    {
      FirstLater(chunks, more, i);
      assert LineGives(more[i - 1], IsLast(more[i - 1 + 1..]), reading);
      assert more[i - 1 + 1..] == chunks[i + 1..];
    }
  }

  lemma FirstLater(lines: seq<Bytes>, more: seq<Bytes>, i: nat)
    requires lines != [] && more == lines[1..] && !ValueLine(lines[0]) && FirstValueLine(lines, i)
    ensures i > 0 && FirstValueLine(more, i - 1) && more[i - 1] == lines[i]
  {
    assert forall j :: 0 <= j < |more| ==> more[j] == lines[j + 1];
  }

  lemma {:induction false} SomeFirst(lines: seq<Bytes>, n: nat) returns (i: nat)
    requires n < |lines| && ValueLine(lines[n])
    ensures FirstValueLine(lines, i)
  {
    i := 0;
    while !ValueLine(lines[i])
      invariant i <= n && forall j :: 0 <= j < i ==> !ValueLine(lines[j])
      decreases n - i
    {
      i := i + 1;
    }
  }

  lemma GivesOne(line: Bytes, whole: bool, a: Reading, b: Reading)
    requires LineGives(line, whole, a) && LineGives(line, whole, b)
    ensures a == b
  {
    ReadLineExactly(line, whole, a);
    ReadLineExactly(line, whole, b);
  }

  /** And it reads nothing else. */
  lemma RegQueryExactly(bs: Bytes, reading: Reading)
    ensures RegQueryPath(bs) == reading <==> Reads(Chunks(bs), reading)
    ensures Joined(Chunks(bs)) == bs
    ensures forall i :: 0 <= i < |Chunks(bs)| ==> LF !in Chunks(bs)[i]
  {
    var lines := Chunks(bs);
    ChunksExactly(bs);
    RegQueryReads(bs);
    if Reads(lines, reading) {
      if n: nat :| n < |lines| && ValueLine(lines[n]) {
        var i := SomeFirst(lines, n);
        GivesOne(lines[i], IsLast(lines[i + 1..]), reading, RegQueryPath(bs));
      }
    }
  }
}
