/** Reading a `Path` value back out of what `wine reg query` prints, as bytes,
    and the guard that keeps this program from writing what it could not read. */
module RegQuery {
  import opened Wrappers
  import opened Text
  import opened Octets

  const LF: byte := 10
  const CR: byte := 13

  /** Why a value is present and yet not one this program can read. */
  datatype Why = LineBreak | NonAscii | StoredAs(ty: string) | NoPath | Control | FileRejected

  /** What a key holds, as far as this program can tell. */
  datatype Reading = Absent | Plain(path: string) | Other(why: Why)

  predicate AsciiBytes(bs: Bytes) {
    forall i :: 0 <= i < |bs| ==> bs[i] < 128
  }

  function Decode(bs: Bytes): (s: string)
    requires AsciiBytes(bs)
  {
    seq(|bs|, i requires 0 <= i < |bs| => bs[i] as char)
  }

  function Encode(s: string): (bs: Bytes)
    requires IsAscii(s)
    ensures AsciiBytes(bs) && Decode(bs) == s
  {
    seq(|s|, i requires 0 <= i < |s| => s[i] as int as byte)
  }

  // ------------------------------------------------------------- the reader

  /** The line up to its first byte that is not ASCII. */
  function AsciiPrefix(line: Bytes): (p: Bytes)
    ensures AsciiBytes(p) && p <= line
  {
    if line == [] || line[0] >= 128 then [] else [line[0]] + AsciiPrefix(line[1..])
  }

  /** `split_once(char::is_whitespace)`, the whole and nothing when there is none. */
  function SplitAtWhitespace(s: string): (string, string) {
    if s == "" then ("", "")
    else if IsWhitespace(s[0]) then ("", s[1..])
    else
      var (before, after) := SplitAtWhitespace(s[1..]);
      ([s[0]] + before, after)
  }

  /** What follows the name on the line of the `Path` value, whose type and
      value it still holds; `None` for any other line. */
  function AfterName(head: string): Option<string> {
    var line := TrimStart(head);
    if StartsWith(line, "Path") && |line| > 4 && IsWhitespace(line[4])
    then Some(line[4..])
    else None
  }

  /** The type and the value, once the line is known to be whole and ASCII. */
  function TypeAndValue(rest: string): Reading {
    var (ty, value) := SplitAtWhitespace(TrimStart(rest));
    if ty != "REG_SZ" then Other(StoredAs(ty))
    else if TrimStart(value) == "" then Other(NoPath)
    else Plain(TrimStart(value))
  }

  function ReadLine(line: Bytes, whole: bool): Option<Reading> {
    var ascii := AsciiPrefix(line);
    match AfterName(StripCr(Decode(ascii)))
    case None => None
    case Some(rest) =>
      if !whole then Some(Other(LineBreak))
      else if |ascii| != |line| then Some(Other(NonAscii))
      else Some(TypeAndValue(rest))
  }

  function IndexOfLf(bs: Bytes): (n: nat)
    ensures n <= |bs|
  {
    if bs == [] || bs[0] == LF then 0 else IndexOfLf(bs[1..]) + 1
  }

  /** Nothing but wine's closing blank line may follow a line read whole. */
  predicate NothingFollows(rest: Bytes) {
    rest == [] || rest == [CR, LF]
  }

  /** `reg_query_path` */
  function RegQueryPath(stdout: Bytes): Reading
    decreases |stdout|
  {
    var n := IndexOfLf(stdout);
    var rest := if n == |stdout| then [] else stdout[n + 1..];
    match ReadLine(stdout[..n], NothingFollows(rest))
    case Some(reading) => reading
    case None => if n == |stdout| then Absent else RegQueryPath(rest)
  }

  /** `slice::split` at each line feed: always one chunk more than line feeds. */
  function Chunks(bs: Bytes): (chunks: seq<Bytes>)
    ensures chunks != []
    decreases |bs|
  {
    var n := IndexOfLf(bs);
    if n == |bs| then [bs] else [bs[..n]] + Chunks(bs[n + 1..])
  }

  /** What is left of the output after its first chunk and the line feed. */
  function AfterFirst(bs: Bytes): Bytes {
    var n := IndexOfLf(bs);
    if n == |bs| then [] else bs[n + 1..]
  }

  lemma NoMoreChunks(bs: Bytes)
    requires IndexOfLf(bs) == |bs|
    ensures Chunks(bs) == [bs]
  {
  }

  lemma MoreChunks(bs: Bytes, n: nat, chunk: Bytes, rest: Bytes)
    requires n == IndexOfLf(bs) < |bs| && chunk == bs[..n] && rest == bs[n + 1..]
    ensures Chunks(bs) == [chunk] + Chunks(rest)
  {
  }

  lemma AndMore(all: seq<Bytes>, chunk: Bytes, more: seq<Bytes>)
    requires all == [chunk] + more
    ensures |all| == 1 + |more| && all[0] == chunk && all[1..] == more
  {
  }

  lemma FirstChunkLies(bs: Bytes)
    ensures var chunk, rest := Chunks(bs)[0], AfterFirst(bs);
      && |chunk| + (if |Chunks(bs)| > 1 then 1 else 0) <= |bs|
      && rest == bs[|chunk| + (if |Chunks(bs)| > 1 then 1 else 0)..]
      && (|Chunks(bs)| > 1 ==> Chunks(bs)[1..] == Chunks(rest))
  {
    var n := IndexOfLf(bs);
    if n == |bs| {
      NoMoreChunks(bs);
    } else {
      MoreChunks(bs, n, bs[..n], bs[n + 1..]);
      AndMore(Chunks(bs), bs[..n], Chunks(bs[n + 1..]));
    }
  }

  /** One turn of the loop, in the reader's own terms. */
  lemma FirstChunk(bs: Bytes)
    ensures var chunk, rest := Chunks(bs)[0], AfterFirst(bs);
      RegQueryPath(bs) ==
      match ReadLine(chunk, NothingFollows(rest))
      case Some(reading) => reading
      case None => if |Chunks(bs)| == 1 then Absent else RegQueryPath(rest)
  {
    assert bs[..|bs|] == bs;
  }

  method ReadRegQuery(stdout: Bytes) returns (reading: Reading)
    ensures reading == RegQueryPath(stdout)
  {
    var chunks := Chunks(stdout);
    var last := |chunks| - 1;
    var after := 0;
    ghost var left := stdout;
    assert stdout[0..] == stdout && chunks[0..] == chunks;
    for i := 0 to |chunks|
      invariant after <= |stdout| && left == stdout[after..]
      invariant i < |chunks| ==> chunks[i..] == Chunks(left)
      invariant RegQueryPath(stdout) == if i < |chunks| then RegQueryPath(left) else Absent
    {
      var line := chunks[i];
      assert chunks[i..][0] == line && chunks[i..][1..] == chunks[i + 1..];
      FirstChunkLies(left);
      FirstChunk(left);
      left := AfterFirst(left);
      after := after + |line| + (if i != last then 1 else 0);
      var rest := stdout[after..];
      assert rest == left;
      var read := ReadLine(line, NothingFollows(rest));
      if read.Some? {
        return read.value;
      }
    }
    return Absent;
  }

  // --------------------------------------------------------- wine's output

  /** A type token as wine prints one. */
  predicate IsToken(ty: string) {
    ty != "" && IsAscii(ty) && forall i :: 0 <= i < |ty| ==> !IsWhitespace(ty[i])
  }

  const SEPARATOR := "    "

  /** The line of a `Path` value of type `ty`, up to the value. */
  function BeforeValue(ty: string): string {
    SEPARATOR + "Path" + SEPARATOR + ty + SEPARATOR
  }

  /** The name wine prints for a queried key starts with `HKEY`. */
  predicate IsKeyName(key: string) {
    key != "" && IsAscii(key) && '\n' !in key && key[0] == 'H'
  }

  /** What wine prints for a key with a `Path`, whose value prints as `shown`. */
  function WineOutput(key: string, ty: string, shown: Bytes): Bytes
    requires IsKeyName(key) && IsToken(ty)
  {
    [CR, LF] + (Encode(key) + [CR, LF] + (Encode(BeforeValue(ty)) + shown + [CR, LF, CR, LF]))
  }

  /** How a value of type `ty` that prints as `shown` is to be read. */
  function ReadingOf(ty: string, shown: Bytes): Reading {
    if LF in shown then Other(LineBreak)
    else if !AsciiBytes(shown) then Other(NonAscii)
    else if ty != "REG_SZ" then Other(StoredAs(ty))
    else if TrimStart(Decode(shown)) == "" then Other(NoPath)
    else Plain(TrimStart(Decode(shown)))
  }

  // ------------------------------------------- the reader on wine's output

  lemma {:induction false} IndexOfLfConcat(line: Bytes, rest: Bytes)
    requires LF !in line
    ensures IndexOfLf(line + [LF] + rest) == |line|
  {
    if line != [] {
      assert (line + [LF] + rest)[1..] == line[1..] + [LF] + rest;
      IndexOfLfConcat(line[1..], rest);
    }
  }

  lemma FirstLine(line: Bytes, rest: Bytes)
    requires LF !in line
    ensures RegQueryPath(line + [LF] + rest) ==
            match ReadLine(line, NothingFollows(rest))
            case Some(reading) => reading
            case None => RegQueryPath(rest)
  {
    IndexOfLfConcat(line, rest);
    var out := line + [LF] + rest;
    assert out[..|line|] == line && out[|line| + 1..] == rest;
  }

  lemma {:induction false} AsciiPrefixConcat(a: Bytes, b: Bytes)
    requires AsciiBytes(a)
    ensures AsciiPrefix(a + b) == a + AsciiPrefix(b)
  {
    if a == [] {
      assert a + b == b;
    } else {
      assert (a + b)[1..] == a[1..] + b;
      AsciiPrefixConcat(a[1..], b);
    }
  }

  lemma {:induction false} AsciiPrefixWhole(b: Bytes)
    ensures AsciiPrefix(b) == b <==> AsciiBytes(b)
  {
    if b != [] && b[0] < 128 {
      AsciiPrefixWhole(b[1..]);
      assert b == [b[0]] + b[1..];
      assert AsciiPrefix(b)[1..] == AsciiPrefix(b[1..]);
    }
  }

  lemma DecodeConcat(a: Bytes, b: Bytes)
    requires AsciiBytes(a) && AsciiBytes(b)
    ensures AsciiBytes(a + b) && Decode(a + b) == Decode(a) + Decode(b)
  {
  }

  lemma StripCrConcat(a: string, b: string)
    requires b != "" || (a != "" && a[|a| - 1] != '\r')
    ensures StripCr(a + b) == a + StripCr(b)
  {
    if b == "" {
      assert a + b == a;
    } else if b[|b| - 1] == '\r' {
      assert DropLast(a + b) == a + DropLast(b);
    }
  }

  lemma {:induction false} SplitAtFirst(ty: string, gap: string, value: string)
    requires forall i :: 0 <= i < |ty| ==> !IsWhitespace(ty[i])
    requires gap != "" && IsWhitespace(gap[0])
    ensures SplitAtWhitespace(ty + (gap + value)) == (ty, gap[1..] + value)
  {
    if ty == "" {
      assert ty + (gap + value) == gap + value && (gap + value)[1..] == gap[1..] + value;
    } else {
      assert (ty + (gap + value))[1..] == ty[1..] + (gap + value);
      SplitAtFirst(ty[1..], gap, value);
      assert ty == [ty[0]] + ty[1..];
    }
  }

  lemma {:induction false} TrimStartSkips(ws: string, s: string)
    requires AllWhitespace(ws)
    ensures TrimStart(ws + s) == TrimStart(s)
  {
    if ws == "" {
      assert ws + s == s;
    } else {
      assert (ws + s)[1..] == ws[1..] + s;
      TrimStartSkips(ws[1..], s);
    }
  }

  /** A line whose first character is neither blank nor the name's is skipped. */
  lemma OtherLineSkipped(line: Bytes, whole: bool)
    requires line == [] || (line[0] < 128 && !IsWhitespace(line[0] as char) && line[0] != 80)
             || line == [CR]
    ensures ReadLine(line, whole) == None
  {
    var head := StripCr(Decode(AsciiPrefix(line)));
    if line == [CR] {
      assert AsciiPrefix(line[1..]) == [];
      assert head == "";
    } else if line != [] {
      assert head == "" || head[0] == line[0] as char;
    }
  }

  /** The name is found on the value's line, whatever the value is. */
  lemma NameFound(gap: string, ty: string, tail: string)
    requires gap == SEPARATOR
    ensures AfterName(BeforeValue(ty) + tail) == Some(gap + (ty + (gap + tail)))
  {
    var rest := gap + (ty + (gap + tail));
    var named := "Path" + rest;
    assert BeforeValue(ty) + tail == gap + named;
    TrimStartUnique(gap, named);
    assert named[4..] == rest && named[..4] == "Path" && named[4] == gap[0];
  }

  lemma TypeAndValueRead(gap: string, ty: string, value: string)
    requires IsToken(ty) && gap != "" && AllWhitespace(gap)
    ensures TypeAndValue(gap + (ty + (gap + value)))
         == if ty != "REG_SZ" then Other(StoredAs(ty))
            else if TrimStart(value) == "" then Other(NoPath)
            else Plain(TrimStart(value))
  {
    TrimStartUnique(gap, ty + (gap + value));
    SplitAtFirst(ty, gap, value);
    TrimStartSkips(gap[1..], value);
  }

  /** How a line starts to be read, when what follows the name is `tail`. */
  lemma ValueLineStarts(ty: string, tail: Bytes, whole: bool)
    requires IsToken(ty)
    ensures ReadLine(Encode(BeforeValue(ty)) + tail, whole) == Some(
              if !whole then Other(LineBreak)
              else if !AsciiBytes(tail) then Other(NonAscii)
              else TypeAndValue(SEPARATOR + (ty + (SEPARATOR + StripCr(Decode(tail))))))
  {
    var before, ascii := Encode(BeforeValue(ty)), AsciiPrefix(tail);
    AsciiPrefixConcat(before, tail);
    AsciiPrefixWhole(tail);
    DecodeConcat(before, ascii);
    StripCrConcat(BeforeValue(ty), Decode(ascii));
    NameFound(SEPARATOR, ty, StripCr(Decode(ascii)));
    assert |before + ascii| == |before + tail| <==> ascii == tail;
  }

  lemma AsciiWithCr(shown: Bytes)
    ensures AsciiBytes(shown + [CR]) <==> AsciiBytes(shown)
    ensures AsciiBytes(shown) ==> StripCr(Decode(shown + [CR])) == Decode(shown)
  {
    if AsciiBytes(shown) {
      DecodeConcat(shown, [CR]);
    } else {
      var i :| 0 <= i < |shown| && shown[i] >= 128;
      assert (shown + [CR])[i] >= 128;
    }
  }

  lemma SeparatorSeparates(gap: string)
    requires gap == SEPARATOR
    ensures gap != "" && AllWhitespace(gap)
  {
  }

  lemma WholeLineRead(ty: string, shown: Bytes)
    requires IsToken(ty) && LF !in shown
    ensures ReadLine(Encode(BeforeValue(ty)) + (shown + [CR]), true) == Some(ReadingOf(ty, shown))
  {
    ValueLineStarts(ty, shown + [CR], true);
    AsciiWithCr(shown);
    if AsciiBytes(shown) {
      SeparatorSeparates(SEPARATOR);
      TypeAndValueRead(SEPARATOR, ty, Decode(shown));
    }
  }

  /** Neither the blank first line nor the key's own line is the value's. */
  lemma HeaderSkipped(key: string, third: Bytes)
    requires IsKeyName(key)
    ensures RegQueryPath([CR, LF] + (Encode(key) + [CR, LF] + third)) == RegQueryPath(third)
  {
    var name := Encode(key) + [CR];
    var second := name + [LF] + third;
    assert [CR, LF] + (Encode(key) + [CR, LF] + third) == [CR] + [LF] + second;
    LineFeedByte(key);
    FirstLine([CR], second);
    OtherLineSkipped([CR], NothingFollows(second));
    FirstLine(name, third);
    OtherLineSkipped(name, NothingFollows(third));
  }

  lemma BrokenValue(before: Bytes, first: Bytes, more: Bytes, closing: Bytes)
    ensures before + (first + [LF] + more) + closing == (before + first) + [LF] + (more + closing)
  {
  }

  lemma ClosedValue(before: Bytes, shown: Bytes)
    ensures before + shown + [CR, LF, CR, LF] == (before + (shown + [CR])) + [LF] + [CR, LF]
  {
  }

  lemma ValueRead(before: Bytes, ty: string, shown: Bytes)
    requires IsToken(ty) && before == Encode(BeforeValue(ty)) && LF !in before
    ensures RegQueryPath(before + shown + [CR, LF, CR, LF]) == ReadingOf(ty, shown)
  {
    if LF in shown {
      var first, more := SplitAtLf(shown);
      BrokenValue(before, first, more, [CR, LF, CR, LF]);
      FirstLine(before + first, more + [CR, LF, CR, LF]);
      ValueLineStarts(ty, first, false);
      assert |more + [CR, LF, CR, LF]| > 2;
    } else {
      ClosedValue(before, shown);
      FirstLine(before + (shown + [CR]), [CR, LF]);
      WholeLineRead(ty, shown);
    }
  }

  lemma NoLineFeedBefore(ty: string)
    requires IsToken(ty)
    ensures LF !in Encode(BeforeValue(ty))
  {
    assert forall i :: 0 <= i < |ty| ==> ty[i] != '\n';
    LineFeedByte(BeforeValue(ty));
  }

  /** What is printed for a value is read as exactly one thing: never as an
      absence, and as a path only when it is one `REG_SZ` line of ASCII. */
  lemma WineOutputIsRead(key: string, ty: string, shown: Bytes)
    requires IsKeyName(key) && IsToken(ty)
    ensures RegQueryPath(WineOutput(key, ty, shown)) == ReadingOf(ty, shown)
  {
    HeaderSkipped(key, Encode(BeforeValue(ty)) + shown + [CR, LF, CR, LF]);
    NoLineFeedBefore(ty);
    ValueRead(Encode(BeforeValue(ty)), ty, shown);
  }

  lemma {:induction false} SplitAtLf(bs: Bytes) returns (first: Bytes, more: Bytes)
    requires LF in bs
    ensures LF !in first && bs == first + [LF] + more
  {
    if bs[0] == LF {
      first, more := [], bs[1..];
    } else {
      first, more := SplitAtLf(bs[1..]);
      first := [bs[0]] + first;
    }
  }

  lemma PresentIsNeverAbsent(key: string, ty: string, shown: Bytes, path: string)
    requires IsKeyName(key) && IsToken(ty)
    ensures RegQueryPath(WineOutput(key, ty, shown)) != Absent
    ensures RegQueryPath(WineOutput(key, ty, shown)) == Plain(path) <==>
      && ty == "REG_SZ" && AsciiBytes(shown) && LF !in shown
      && path == TrimStart(Decode(shown)) && path != ""
  {
    WineOutputIsRead(key, ty, shown);
  }

  // ----------------------------------------------------------------- guards

  function Backslashed(c: char): char {
    if c == '/' then '\\' else c
  }

  /** `wine_path_for` */
  function WinePath(dir: string): string {
    "Z:" + seq(|dir|, i requires 0 <= i < |dir| => Backslashed(dir[i]))
  }

  /** What this program is willing to write into a key. */
  predicate Registrable(win: string) {
    IsAscii(win) && '\r' !in win && '\n' !in win
  }

  /** `registrable_path` */
  function RegistrablePath(dir: string): Option<string> {
    if Registrable(WinePath(dir)) then Some(WinePath(dir)) else None
  }

  /** `Z:` and the directory, with a backslash for each slash. */
  predicate SpelledForWine(dir: string, path: string) {
    && |path| == |dir| + 2 && path[0] == 'Z' && path[1] == ':'
    && forall i :: 0 <= i < |dir| ==> path[i + 2] == if dir[i] == '/' then '\\' else dir[i]
  }

  /** Every directory of ASCII on one line is accepted, no other is, and what it is
      registered as is told by its own characters. */
  lemma RegistrablePathExactly(dir: string, path: string)
    ensures WinePath(dir) == path <==> SpelledForWine(dir, path)
    ensures RegistrablePath(dir) == Some(path)
       <==> && SpelledForWine(dir, path)
            && forall i :: 0 <= i < |dir| ==>
                 dir[i] as int < 128 && dir[i] as int != 10 && dir[i] as int != 13
  {
    var win := WinePath(dir);
    assert forall i :: 0 <= i < |dir| ==> win[i + 2] == Backslashed(dir[i]);
    assert forall i :: 2 <= i < |win| ==> win[i] == Backslashed(dir[i - 2]);
    if SpelledForWine(dir, path) {
      assert win == path by {
        forall i | 0 <= i < |win| ensures win[i] == path[i] {
          if i >= 2 {
            assert path[i - 2 + 2] == Backslashed(dir[i - 2]);
          }
        }
      }
    }
    if Registrable(win) {
      forall i | 0 <= i < |dir|
        ensures dir[i] as int < 128 && dir[i] as int != 10 && dir[i] as int != 13
      {
        assert win[i + 2] in win;
      }
    }
  }

  /** The guard is what makes a value of ours readable: an ASCII path is read
      back as itself exactly when it holds no line feed, and the guard admits
      no other kind of path. */
  lemma OwnPathIsReadBack(key: string, dir: string)
    requires IsKeyName(key) && IsAscii(WinePath(dir))
    ensures RegQueryPath(WineOutput(key, "REG_SZ", Encode(WinePath(dir)))) == Plain(WinePath(dir))
       <==> '\n' !in WinePath(dir)
    ensures RegistrablePath(dir).Some? ==> '\n' !in WinePath(dir)
  {
    RegSzIsToken("REG_SZ");
    WineOutputIsRead(key, "REG_SZ", Encode(WinePath(dir)));
    OwnTextReading("REG_SZ", WinePath(dir));
  }

  lemma RegSzIsToken(ty: string)
    requires ty == "REG_SZ"
    ensures IsToken(ty)
  {
  }

  lemma OwnTextReading(ty: string, win: string)
    requires ty == "REG_SZ" && IsAscii(win) && win != "" && win[0] == 'Z'
    ensures ReadingOf(ty, Encode(win)) == Plain(win) <==> '\n' !in win
  {
    LineFeedByte(win);
  }

  lemma LineFeedByte(s: string)
    requires IsAscii(s)
    ensures LF in Encode(s) <==> '\n' in s
  {
    if i: nat :| i < |s| && s[i] == '\n' {
      assert Encode(s)[i] == LF;
    }
    if i: nat :| i < |s| && Encode(s)[i] == LF {
      assert s[i] == '\n';
    }
  }
}
