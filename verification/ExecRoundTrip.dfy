/** What the desktop-entry reader and writer promise together: which entries
    the reader reads and as what, and that it reads back what was written. */
module ExecRoundTrip {
  import opened Wrappers
  import opened Text
  import opened DesktopEntry
  import opened ExecGrammar

  // ------------------------------------------------- which line is the one

  ghost predicate MainHeaderFor(kinds: seq<LineKind>, h: nat, i: nat)
    requires i <= |kinds|
  {
    h < i && kinds[h] == Header(true) && forall k :: h < k < i ==> !kinds[k].Header?
  }

  /** The nearest group header above line `i` opens a `[Desktop Entry]` group. */
  ghost predicate InMainGroup(kinds: seq<LineKind>, i: nat) {
    i <= |kinds| && exists h :: MainHeaderFor(kinds, h, i)
  }

  ghost predicate IsExecLine(kinds: seq<LineKind>, i: nat) {
    i < |kinds| && kinds[i].Exec? && InMainGroup(kinds, i)
  }

  ghost predicate OnlyExecLine(kinds: seq<LineKind>, i: nat) {
    IsExecLine(kinds, i) && forall j: nat :: IsExecLine(kinds, j) ==> j == i
  }

  ghost predicate TwoExecLines(kinds: seq<LineKind>) {
    exists i: nat, j: nat :: i != j && IsExecLine(kinds, i) && IsExecLine(kinds, j)
  }

  /** Whether the line after `kinds` would be in a `[Desktop Entry]` group. */
  ghost predicate MainAfter(kinds: seq<LineKind>, inMain: bool) {
    if kinds == [] then inMain
    else MainAfter(kinds[1..], if kinds[0].Header? then kinds[0].main else inMain)
  }

  lemma {:induction false} ExecValuesSplit(a: seq<LineKind>, b: seq<LineKind>, inMain: bool)
    ensures ExecValues(a + b, inMain)
         == ExecValues(a, inMain) + ExecValues(b, MainAfter(a, inMain))
    ensures MainAfter(a + b, inMain) == MainAfter(b, MainAfter(a, inMain))
  {
    if a == [] {
      assert a + b == b;
    } else {
      assert (a + b)[1..] == a[1..] + b;
      ExecValuesSplit(a[1..], b, if a[0].Header? then a[0].main else inMain);
    }
  }

  lemma {:induction false} MainAfterIsInMainGroup(kinds: seq<LineKind>, i: nat)
    requires i <= |kinds|
    ensures MainAfter(kinds[..i], false) <==> InMainGroup(kinds, i)
  {
    if i > 0 {
      var j := i - 1;
      MainAfterIsInMainGroup(kinds, j);
      assert kinds[..i] == kinds[..j] + [kinds[j]];
      ExecValuesSplit(kinds[..j], [kinds[j]], false);
      if kinds[j].Header? {
        assert kinds[j].main ==> MainHeaderFor(kinds, j, i);
      } else {
        if InMainGroup(kinds, j) {
          var h :| MainHeaderFor(kinds, h, j);
          assert MainHeaderFor(kinds, h, i);
        }
        if InMainGroup(kinds, i) {
          var h :| MainHeaderFor(kinds, h, i);
          assert MainHeaderFor(kinds, h, j);
        }
      }
    }
  }

  /** What the values collected from the first `n` lines say about the lines. */
  lemma {:induction false} ValuesAreExecLines(kinds: seq<LineKind>, n: nat)
    requires n <= |kinds|
    ensures ExecValues(kinds[..n], false) == [] ==>
      forall i: nat :: i < n ==> !IsExecLine(kinds, i)
    ensures |ExecValues(kinds[..n], false)| == 1 ==>
      exists i: nat ::
        && i < n && IsExecLine(kinds, i) && kinds[i].value == ExecValues(kinds[..n], false)[0]
        && forall j: nat :: j < n && IsExecLine(kinds, j) ==> j == i
    ensures |ExecValues(kinds[..n], false)| > 1 ==> TwoExecLines(kinds)
  {
    if n > 0 {
      var m := n - 1;
      ValuesAreExecLines(kinds, m);
      MainAfterIsInMainGroup(kinds, m);
      assert kinds[..n] == kinds[..m] + [kinds[m]];
      ExecValuesSplit(kinds[..m], [kinds[m]], false);
      var last := ExecValues([kinds[m]], MainAfter(kinds[..m], false));
      assert last == if IsExecLine(kinds, m) then [kinds[m].value] else [];
    }
  }

  /** The `[Desktop Entry]` groups hold one `Exec` line, and its value derives
      from the grammar with the meaning `args`. */
  ghost predicate OneExecDerives(kinds: seq<LineKind>, args: seq<string>) {
    exists i: nat :: OnlyExecLine(kinds, i) && Derives(kinds[i].value, args)
  }

  lemma OnlyValueIsTheOnlyLine(kinds: seq<LineKind>, args: seq<string>)
    ensures ReadOnlyValue(ExecValues(kinds, false)) == Some(args) <==> OneExecDerives(kinds, args)
  {
    assert kinds[..|kinds|] == kinds;
    ValuesAreExecLines(kinds, |kinds|);
    var values := ExecValues(kinds, false);
    if |values| == 1 {
      ReadsExactlyTheGrammar(values[0], args);
      var i: nat :|
        && i < |kinds| && IsExecLine(kinds, i) && kinds[i].value == values[0]
        && forall j: nat :: j < |kinds| && IsExecLine(kinds, j) ==> j == i;
      assert OnlyExecLine(kinds, i);
    }
  }

  // ---------------------------------------------------- the same, of the lines

  /** The line opens a group. */
  ghost predicate OpensGroup(line: string) {
    exists body :: Padded(line, body) && body != "" && body[0] == '['
  }

  ghost predicate OpensMain(line: string) {
    Padded(line, "[Desktop Entry]")
  }

  /** A key before the line's first `=`, and a value after it. */
  ghost predicate Gives(line: string, key: string, value: string) {
    exists before, after :: GivesBy(line, key, value, before, after)
  }

  ghost predicate GivesBy(line: string, key: string, value: string, before: string, after: string) {
    && Padded(line, before + ['='] + after) && '=' !in before
    && Padded(before, key) && Padded(after, value)
  }

  ghost predicate GivesExec(line: string, value: string) {
    !OpensGroup(line) && Gives(line, "Exec", value)
  }

  lemma GivesExactly(line: string, key: string, value: string)
    ensures Gives(line, key, value)
       <==> match SplitOnce(Trim(line), '=')
            case None => false
            case Some((before, after)) => Trim(before) == key && Trim(after) == value
  {
    SplitOnceSplits(Trim(line), '=');
    match SplitOnce(Trim(line), '=') {
      case None =>
      case Some((before, after)) =>
        TrimExactly(line, before + ['='] + after);
        TrimExactly(before, key);
        TrimExactly(after, value);
        if Trim(before) == key && Trim(after) == value {
          assert GivesBy(line, key, value, before, after);
        }
    }
    if before, after :| GivesBy(line, key, value, before, after) {
      TrimExactly(line, before + ['='] + after);
      SplitOnceConcat(before, '=', after);
      TrimExactly(before, key);
      TrimExactly(after, value);
    }
  }

  lemma KindExactly(line: string)
    ensures Kind(line).Header? <==> OpensGroup(line)
    ensures Kind(line) == Header(true) <==> OpensMain(line)
    ensures forall value :: Kind(line) == Exec(value) <==> GivesExec(line, value)
  {
    TrimExactly(line, Trim(line));
    if body :| Padded(line, body) && body != "" && body[0] == '[' {
      TrimExactly(line, body);
    }
    MainHeaderKind("[Desktop Entry]");
    TrimExactly(line, "[Desktop Entry]");
    forall value ensures Kind(line) == Exec(value) <==> GivesExec(line, value) {
      GivesExactly(line, "Exec", value);
    }
  }

  ghost predicate MainAbove(lines: seq<string>, h: nat, i: nat)
    requires i <= |lines|
  {
    h < i && OpensMain(lines[h]) && forall k :: h < k < i ==> !OpensGroup(lines[k])
  }

  /** The nearest line above line `i` that opens a group opens `[Desktop Entry]`. */
  ghost predicate InMain(lines: seq<string>, i: nat) {
    i <= |lines| && exists h :: MainAbove(lines, h, i)
  }

  ghost predicate ExecAt(lines: seq<string>, i: nat, value: string) {
    i < |lines| && GivesExec(lines[i], value) && InMain(lines, i)
  }

  /** The `[Desktop Entry]` groups give `Exec` once, and the value derives from the
      grammar with the meaning `args`. */
  ghost predicate OneExec(lines: seq<string>, args: seq<string>) {
    exists i, value ::
      && ExecAt(lines, i, value) && Derives(value, args)
      && forall j, other :: ExecAt(lines, j, other) ==> j == i
  }

  lemma {:induction false} KindsAt(lines: seq<string>, i: nat)
    requires i < |lines|
    ensures Kinds(lines)[i] == Kind(lines[i])
  {
    if i > 0 {
      KindsAt(lines[1..], i - 1);
    }
  }

  lemma InMainExactly(lines: seq<string>, i: nat)
    requires i <= |lines|
    ensures InMain(lines, i) <==> InMainGroup(Kinds(lines), i)
  {
    var kinds := Kinds(lines);
    forall k | 0 <= k < i
      ensures kinds[k].Header? <==> OpensGroup(lines[k])
      ensures kinds[k] == Header(true) <==> OpensMain(lines[k])
    {
      KindsAt(lines, k);
      KindExactly(lines[k]);
    }
    if h :| MainAbove(lines, h, i) {
      assert MainHeaderFor(kinds, h, i);
    }
    if InMainGroup(kinds, i) {
      var h :| MainHeaderFor(kinds, h, i);
      assert MainAbove(lines, h, i);
    }
  }

  lemma ExecAtExactly(lines: seq<string>, i: nat, value: string)
    ensures ExecAt(lines, i, value) <==> IsExecLine(Kinds(lines), i) && Kinds(lines)[i].value == value
  {
    if i < |lines| {
      KindsAt(lines, i);
      KindExactly(lines[i]);
      InMainExactly(lines, i);
    }
  }

  lemma OneExecExactly(lines: seq<string>, args: seq<string>)
    ensures OneExec(lines, args) <==> OneExecDerives(Kinds(lines), args)
  {
    var kinds := Kinds(lines);
    if OneExec(lines, args) {
      var i, value :| ExecAt(lines, i, value) && Derives(value, args)
        && forall j, other :: ExecAt(lines, j, other) ==> j == i;
      ExecAtExactly(lines, i, value);
      forall j: nat | IsExecLine(kinds, j) ensures j == i {
        ExecAtExactly(lines, j, kinds[j].value);
      }
      assert OnlyExecLine(kinds, i);
    }
    if OneExecDerives(kinds, args) {
      var i: nat :| OnlyExecLine(kinds, i) && Derives(kinds[i].value, args);
      ExecAtExactly(lines, i, kinds[i].value);
      forall j, other | ExecAt(lines, j, other) ensures j == i {
        ExecAtExactly(lines, j, other);
      }
    }
  }

  /** The reader is sound and complete. */
  lemma ReadsExactlyOneDerivableExec(entry: string, args: seq<string>)
    ensures ExecArguments(entry) == Some(args) <==> OneExec(Lines(entry), args)
  {
    OnlyValueIsTheOnlyLine(Kinds(Lines(entry)), args);
    OneExecExactly(Lines(entry), args);
  }

  lemma {:induction false} ExecValuesSkip(a: seq<LineKind>, l: LineKind, b: seq<LineKind>)
    requires !l.Header? && !MainAfter(a, false)
    ensures ExecValues(a + [l] + b, false) == ExecValues(a + b, false)
  {
    assert a + [l] + b == a + ([l] + b) && ([l] + b)[1..] == b;
    ExecValuesSplit(a, [l] + b, false);
    ExecValuesSplit(a, b, false);
  }

  lemma {:induction false} KindsConcat(a: seq<string>, b: seq<string>)
    ensures Kinds(a + b) == Kinds(a) + Kinds(b)
  {
    if a == [] {
      assert a + b == b;
    } else {
      assert (a + b)[0] == a[0] && (a + b)[1..] == a[1..] + b;
      KindsConcat(a[1..], b);
    }
  }

  /** A line in another group never matters, unless it opens a group itself. */
  lemma OtherGroupsNeverMatter(entry: string, other: string,
                               before: seq<string>, line: string, after: seq<string>)
    requires Lines(entry) == before + [line] + after && Lines(other) == before + after
    requires !OpensGroup(line) && !InMain(before, |before|)
    ensures ExecArguments(entry) == ExecArguments(other)
  {
    var a, b := Kinds(before), Kinds(after);
    KindExactly(line);
    InMainExactly(before, |before|);
    MainAfterIsInMainGroup(a, |a|);
    assert a[..|a|] == a;
    KindsConcat(before + [line], after);
    KindsConcat(before, [line]);
    KindsConcat(before, after);
    assert Kinds([line]) == [Kind(line)];
    ExecValuesSkip(a, Kind(line), b);
  }

  // ----------------------------------------------- what `quote_exec` spells

  function ValueItems(text: string): seq<ValueItem> {
    if text == "" then []
    else [if text[0] == '\\' then Backslashed('\\') else Plain(text[0])] + ValueItems(text[1..])
  }

  lemma {:induction false} ValueItemsMean(text: string)
    ensures ValidValue(ValueItems(text)) && MeanValue(ValueItems(text)) == text
  {
    if text != "" {
      ValueItemsMean(text[1..]);
      assert ValueItems(text)[1..] == ValueItems(text[1..]);
    }
  }

  /** The value that spells `text`: every backslash doubled. */
  function Raw(text: string): string {
    SpellValue(ValueItems(text))
  }

  lemma RawCons(c: char, text: string)
    ensures Raw([c] + text) == (if c == '\\' then "\\\\" else [c]) + Raw(text)
  {
    assert ([c] + text)[1..] == text;
    assert ValueItems([c] + text)[1..] == ValueItems(text);
  }

  lemma {:induction false} RawConcat(a: string, b: string)
    ensures Raw(a + b) == Raw(a) + Raw(b)
  {
    if a == "" {
      assert a + b == b;
    } else {
      assert a == [a[0]] + a[1..] && a + b == [a[0]] + (a[1..] + b);
      RawCons(a[0], a[1..]);
      RawCons(a[0], a[1..] + b);
      RawConcat(a[1..], b);
    }
  }

  lemma {:induction false} RawPlain(text: string)
    requires '\\' !in text
    ensures Raw(text) == text
  {
    if text != "" {
      RawPlain(text[1..]);
      RawCons(text[0], text[1..]);
      assert text == [text[0]] + text[1..];
    }
  }

  function QuotedCharOf(c: char): seq<QuotedChar> {
    if c == '%' then [Literal('%'), Literal('%')]
    else if Escapable(c) then [Escaped(c)]
    else [Literal(c)]
  }

  /** The quoted stretch `quote_exec` writes for one argument. */
  function QuotedBody(s: string): seq<QuotedChar> {
    if s == "" then [] else QuotedCharOf(s[0]) + QuotedBody(s[1..])
  }

  lemma EscapeCharIsRaw(c: char, more: string)
    ensures c != '%' && !Escapable(c) ==> EscapeChar(c) + Raw(more) == Raw([c] + more)
    ensures c == '%' ==> EscapeChar(c) + Raw(more) == Raw([c] + ([c] + more))
    ensures Escapable(c) ==> EscapeChar(c) + Raw(more) == Raw(['\\', c] + more)
  {
    RawCons(c, more);
    if c == '%' {
      RawCons(c, [c] + more);
    } else if Escapable(c) {
      assert ['\\', c] + more == ['\\'] + ([c] + more);
      RawCons('\\', [c] + more);
    }
  }

  lemma CharSpells(c: char, rest: seq<QuotedChar>, tail: string)
    requires ValidBody(rest)
    ensures ValidBody(QuotedCharOf(c) + rest)
    ensures Raw(SpellBody(QuotedCharOf(c) + rest, tail)) == EscapeChar(c) + Raw(SpellBody(rest, tail))
  {
    var body := QuotedCharOf(c) + rest;
    EscapeCharIsRaw(c, SpellBody(rest, tail));
    if c == '%' {
      assert body[1..] == [Literal('%')] + rest && body[1..][1..] == rest;
    } else {
      assert body[1..] == rest;
    }
  }

  lemma {:induction false} QuotedBodySpells(s: string, tail: string)
    ensures ValidBody(QuotedBody(s))
    ensures Raw(SpellBody(QuotedBody(s), tail)) == Escape(s) + Raw(tail)
  {
    if s == "" {
      assert "" + Raw(tail) == Raw(tail);
    } else {
      QuotedBodySpells(s[1..], tail);
      CharSpells(s[0], QuotedBody(s[1..]), tail);
      Regroup(EscapeChar(s[0]), Escape(s[1..]), Raw(tail));
    }
  }

  lemma {:induction false} QuotedBodyMeans(s: string)
    ensures Undoubled(MeanBody(QuotedBody(s), "")) == s
  {
    if s != "" {
      QuotedBodyMeans(s[1..]);
      var body := QuotedBody(s);
      var more := MeanBody(QuotedBody(s[1..]), "");
      if s[0] == '%' {
        assert body[1..][1..] == QuotedBody(s[1..]);
        assert MeanBody(body, "") == ['%'] + (['%'] + more);
        assert (['%'] + (['%'] + more))[2..] == more;
      } else {
        assert body[1..] == QuotedBody(s[1..]);
        assert MeanBody(body, "") == [s[0]] + more;
        assert ([s[0]] + more)[1..] == more;
      }
    }
  }

  function QuotedWord(arg: string, gap: string): Word {
    Word([Quotes(QuotedBody(arg))], gap)
  }

  lemma QuotedWordSpells(arg: string, gap: string, tail: string)
    ensures ValidArgument(QuotedWord(arg, gap).pieces)
    ensures Raw(SpellPieces(QuotedWord(arg, gap).pieces, tail)) == Quoted(arg) + Raw(tail)
    ensures Undoubled(MeanPieces(QuotedWord(arg, gap).pieces, "")) == arg
  {
    var pieces := QuotedWord(arg, gap).pieces;
    assert pieces[1..] == [];
    QuotedBodySpells(arg, ['"'] + tail);
    QuotedBodyMeans(arg);
    RawCons('"', tail);
    RawCons('"', SpellBody(QuotedBody(arg), ['"'] + tail));
  }

  // ------------------------------------------------- a list of arguments

  /** Every argument quoted, with one space between two of them. */
  function JoinQuoted(args: seq<string>): string {
    if args == [] then ""
    else if |args| == 1 then Quoted(args[0])
    else Quoted(args[0]) + " " + JoinQuoted(args[1..])
  }

  function QuotedWords(args: seq<string>): seq<Word> {
    if args == [] then []
    else [QuotedWord(args[0], if |args| == 1 then "" else " ")] + QuotedWords(args[1..])
  }

  lemma {:induction false} QuotedWordsMean(args: seq<string>)
    ensures |QuotedWords(args)| == |args| && ValidWords(QuotedWords(args))
    ensures MeanWords(QuotedWords(args)) == args
  {
    if args != [] {
      QuotedWordsMean(args[1..]);
      var w := QuotedWord(args[0], if |args| == 1 then "" else " ");
      QuotedWordSpells(args[0], w.gap, "");
      WordsCons(w, QuotedWords(args[1..]));
    }
  }

  lemma {:induction false} QuotedWordsSpell(args: seq<string>)
    ensures Raw(SpellWords(QuotedWords(args))) == JoinQuoted(args)
  {
    if args != [] {
      QuotedWordsSpell(args[1..]);
      var gap := if |args| == 1 then "" else " ";
      var more := SpellWords(QuotedWords(args[1..]));
      QuotedWordSpells(args[0], gap, gap + more);
      assert QuotedWords(args)[1..] == QuotedWords(args[1..]);
      RawConcat(gap, more);
      RawPlain(gap);
      Regroup(Quoted(args[0]), gap, Raw(more));
    }
  }

  /** Quote any arguments, join them, and read the value back: the same list,
      unless it names no program, which is refused. */
  lemma QuotedArgumentsReadBack(args: seq<string>)
    ensures ReadValue(JoinQuoted(args)) == NamingAProgram(args)
  {
    QuotedWordsMean(args);
    QuotedWordsSpell(args);
    ReadFromWords(QuotedWords(args));
  }

  // -------------------------------------------------- the whole entry

  lemma TrimEndEscaped(prefix: string, s: string)
    requires prefix != "" && !IsWhitespace(prefix[|prefix| - 1])
    ensures TrimEnd(prefix + Escape(s)) == prefix + Escape(TrimEnd(s))
    decreases |s|
  {
    if s == "" {
      assert prefix + Escape(s) == prefix;
    } else {
      var front, c := DropLast(s), s[|s| - 1];
      assert s == front + [c];
      EscapeAppend(front, c);
      var whole := prefix + Escape(s);
      assert whole == prefix + Escape(front) + EscapeChar(c);
      assert whole[|whole| - 1] == c;
      if IsWhitespace(c) {
        assert DropLast(whole) == prefix + Escape(front);
        TrimEndEscaped(prefix, front);
      }
    }
  }

  lemma StripCrEscaped(prefix: string, s: string)
    requires prefix != "" && prefix[|prefix| - 1] != '\r'
    ensures StripCr(prefix + Escape(s)) == prefix + Escape(StripCr(s))
  {
    if s == "" {
      assert prefix + Escape(s) == prefix;
    } else {
      var front, c := DropLast(s), s[|s| - 1];
      assert s == front + [c];
      EscapeAppend(front, c);
      var whole := prefix + Escape(s);
      assert whole == prefix + Escape(front) + EscapeChar(c);
      assert whole[|whole| - 1] == c;
      if c == '\r' {
        assert DropLast(whole) == prefix + Escape(front);
      }
    }
  }

  lemma {:induction false} EscapeConcat(a: string, b: string)
    ensures Escape(a + b) == Escape(a) + Escape(b)
  {
    if a == "" {
      assert a + b == b;
    } else {
      assert (a + b)[1..] == a[1..] + b;
      EscapeConcat(a[1..], b);
    }
  }

  lemma {:induction false} EscapeKeepsOneLine(s: string)
    ensures '\n' in Escape(s) <==> '\n' in s
  {
    if s != "" {
      EscapeKeepsOneLine(s[1..]);
      assert s == [s[0]] + s[1..];
    }
  }

  lemma {:induction false} TrimEndPrefix(prefix: string, s: string)
    requires prefix != "" && !IsWhitespace(prefix[|prefix| - 1])
    ensures TrimEnd(prefix + s) == prefix + TrimEnd(s)
    decreases |s|
  {
    if s == "" {
      assert prefix + s == prefix;
    } else if IsWhitespace(s[|s| - 1]) {
      assert DropLast(prefix + s) == prefix + DropLast(s);
      TrimEndPrefix(prefix, DropLast(s));
    }
  }

  lemma TrimKeyLine(key: string, value: string)
    requires key != "" && !IsWhitespace(key[0])
    ensures Trim(key + ['='] + value) == key + ['='] + TrimEnd(value)
  {
    TrimEndPrefix(key + ['='], value);
  }

  /** A line that gives `key` a value that does not start with whitespace. */
  lemma KeyLine(key: string, value: string)
    requires key != "" && !IsWhitespace(key[0]) && !IsWhitespace(key[|key| - 1])
    requires '=' !in key && key[0] != '['
    requires value != "" && !IsWhitespace(value[0])
    ensures Kind(key + ['='] + value) == if key == "Exec" then Exec(TrimEnd(value)) else Neither
  {
    var trimmed := TrimEnd(value);
    TrimKeyLine(key, value);
    SplitOnceConcat(key, '=', trimmed);
    TrimIdentity(key);
    TrimEndIsPrefix(value);
    if trimmed != "" {
      TrimIdentity(trimmed);
    }
  }

  /** The values the scanner collects from `text`. */
  function ValuesIn(text: string, inMain: bool): seq<string> {
    ExecValues(Kinds(Lines(text)), inMain)
  }

  lemma FirstLine(line: string, rest: string, inMain: bool)
    requires '\n' !in line
    ensures ValuesIn(line + "\n" + rest, inMain)
         == match Kind(StripCr(line))
            case Header(main) => ValuesIn(rest, main)
            case Exec(v) => (if inMain then [v] else []) + ValuesIn(rest, inMain)
            case Neither => ValuesIn(rest, inMain)
  {
    LinesCons(line, rest);
    var kind, kinds := Kind(StripCr(line)), Kinds(Lines(rest));
    assert Lines(line + "\n" + rest)[1..] == Lines(rest);
    assert ([kind] + kinds)[1..] == kinds;
  }

  /** A key other than `Exec`, and a value for it, that fill one line. */
  predicate OtherKey(key: string, value: string) {
    && key != "" && !IsWhitespace(key[0]) && !IsWhitespace(key[|key| - 1])
    && '=' !in key && '\n' !in key && key[0] != '[' && key != "Exec"
    && value != "" && !IsWhitespace(value[0]) && !IsWhitespace(value[|value| - 1])
    && '\n' !in value
  }

  lemma OtherKeyIsSkipped(key: string, value: string, rest: string, inMain: bool)
    requires OtherKey(key, value)
    ensures ValuesIn(key + ['='] + value + "\n" + rest, inMain) == ValuesIn(rest, inMain)
  {
    KeyLine(key, value);
    var line := key + ['='] + value;
    assert line[|line| - 1] == value[|value| - 1];
    FirstLine(line, rest, inMain);
  }

  predicate OtherKeys(keys: seq<(string, string)>) {
    forall i :: 0 <= i < |keys| ==> OtherKey(keys[i].0, keys[i].1)
  }

  lemma {:induction false} OtherKeysAreSkipped(keys: seq<(string, string)>, rest: string,
                                              inMain: bool)
    requires OtherKeys(keys)
    ensures ValuesIn(KeyLines(keys) + rest, inMain) == ValuesIn(rest, inMain)
  {
    if keys == [] {
      assert KeyLines(keys) + rest == rest;
    } else {
      var more := KeyLines(keys[1..]);
      Regroup(keys[0].0 + ['='] + keys[0].1 + "\n", more, rest);
      OtherKeyIsSkipped(keys[0].0, keys[0].1, more + rest, inMain);
      OtherKeysAreSkipped(keys[1..], rest, inMain);
    }
  }

  lemma TypeAndVersionKeys()
    ensures OtherKey("Type", "Application") && OtherKey("Version", "1.5")
  {
  }

  lemma NameKey()
    ensures OtherKey("Name", "Tobii Eye Tracker")
  {
  }

  lemma CommentKey()
    ensures OtherKey("Comment", "Keep the Tobii hub ready in the background")
  {
  }

  lemma IconAndTerminalKeys()
    ensures OtherKey("Icon", APP_ID) && OtherKey("Terminal", "false")
  {
  }

  lemma DisplayKeys()
    ensures OtherKey("NoDisplay", "true") && OtherKey("X-GNOME-Autostart-enabled", "true")
  {
  }

  lemma FourOtherKeys(a: (string, string), b: (string, string), c: (string, string),
                      d: (string, string))
    requires OtherKey(a.0, a.1) && OtherKey(b.0, b.1) && OtherKey(c.0, c.1) && OtherKey(d.0, d.1)
    ensures OtherKeys([a, b, c, d])
  {
  }

  lemma EntryKeys()
    ensures OtherKeys(KEYS_BEFORE) && OtherKeys(KEYS_AFTER)
  {
    TypeAndVersionKeys();
    NameKey();
    CommentKey();
    FourOtherKeys(KEYS_BEFORE[0], KEYS_BEFORE[1], KEYS_BEFORE[2], KEYS_BEFORE[3]);
    IconAndTerminalKeys();
    DisplayKeys();
    FourOtherKeys(KEYS_AFTER[0], KEYS_AFTER[1], KEYS_AFTER[2], KEYS_AFTER[3]);
  }

  lemma MainHeaderKind(line: string)
    requires line == MAIN_HEADER
    ensures Kind(line) == Header(true)
  {
    assert line[0] == '[' && line[|line| - 1] == ']';
    TrimIdentity(line);
  }

  lemma MainHeaderLine(rest: string)
    ensures ValuesIn(MAIN_HEADER + "\n" + rest, false) == ValuesIn(rest, true)
  {
    var line := MAIN_HEADER;
    assert '\n' !in line && StripCr(line) == line;
    MainHeaderKind(line);
    FirstLine(line, rest, false);
  }

  lemma ExecLineKind(key: string, value: string)
    requires key == "Exec" && value != "" && !IsWhitespace(value[0]) && value[0] != '\r'
    ensures Kind(StripCr(key + ['='] + value)) == Exec(TrimEnd(StripCr(value)))
  {
    assert StripCr(key + ['='] + value) == key + ['='] + StripCr(value);
    KeyLine(key, StripCr(value));
  }

  lemma ExecLineValue(key: string, value: string, rest: string)
    requires key == "Exec" && '\n' !in key
    requires '\n' !in value && value != "" && value[0] == '"'
    ensures ValuesIn(key + ['='] + value + "\n" + rest, true)
         == [TrimEnd(StripCr(value))] + ValuesIn(rest, true)
  {
    var line := key + ['='] + value;
    ExecLineKind(key, value);
    FirstLine(line, rest, true);
  }

  /** What the scanner finds in an entry whose `Exec` line is `line`. */
  lemma EntryValues(line: string, rest: string)
    requires '\n' !in line && line != "" && line[0] == '"'
    ensures ValuesIn(MAIN_HEADER + "\n"
                     + (KeyLines(KEYS_BEFORE) + ("Exec" + ['='] + line + "\n" + rest)), false)
         == [TrimEnd(StripCr(line))] + ValuesIn(rest, true)
  {
    EntryKeys();
    var exec := "Exec" + ['='] + line + "\n" + rest;
    MainHeaderLine(KeyLines(KEYS_BEFORE) + exec);
    OtherKeysAreSkipped(KEYS_BEFORE, exec, true);
    ExecLineValue("Exec", line, rest);
  }

  function BarePieces(s: string): seq<Piece> {
    if s == "" then [] else [Bare(s[0])] + BarePieces(s[1..])
  }

  lemma {:induction false} BarePiecesSpell(s: string, tail: string)
    requires forall i :: 0 <= i < |s| ==> ValidPiece(Bare(s[i]))
    ensures ValidPieces(BarePieces(s)) && |BarePieces(s)| == |s|
    ensures SpellPieces(BarePieces(s), tail) == s + tail
    ensures MeanPieces(BarePieces(s), tail) == s + tail
  {
    if s == "" {
      assert s + tail == tail;
    } else {
      BarePiecesSpell(s[1..], tail);
      assert s + tail == [s[0]] + (s[1..] + tail);
      assert BarePieces(s)[1..] == BarePieces(s[1..]);
    }
  }

  lemma {:induction false} NothingToUndouble(s: string)
    requires '%' !in s
    ensures Undoubled(s) == s
  {
    if s != "" {
      NothingToUndouble(s[1..]);
      assert s == [s[0]] + s[1..];
    }
  }

  /** An argument that needs no quotes and means itself. */
  predicate Bareword(s: string) {
    s != "" && forall i :: 0 <= i < |s| ==>
      ValidPiece(Bare(s[i])) && s[i] != '%' && !IsWhitespace(s[i])
  }

  lemma BarewordWord(s: string)
    requires Bareword(s)
    ensures var w := Word(BarePieces(s), "");
      && ValidWords([w]) && SpellWords([w]) == s && MeanWords([w]) == [s]
  {
    var w := Word(BarePieces(s), "");
    BarePiecesSpell(s, "");
    assert s + "" == s;
    NothingToUndouble(s);
    WordsCons(w, []);
    assert [w] + [] == [w] && "" + "" == "";
  }

  /** A program, quoted, and one argument after it that needs no quotes. */
  lemma ProgramAndBareword(exec: string, arg: string)
    requires Bareword(arg)
    ensures ReadValue(Quoted(exec) + (" " + arg)) == NamingAProgram([exec, arg])
  {
    var program, words := QuotedWord(exec, " "), [Word(BarePieces(arg), "")];
    BarewordWord(arg);
    QuotedWordSpells(exec, " ", " " + arg);
    WordsCons(program, words);
    RawPlain(" " + arg);
    ReadFromWords([program] + words);
    assert [exec] + [arg] == [exec, arg];
  }

  lemma ReadFromWords(words: seq<Word>)
    requires ValidWords(words)
    ensures ReadValue(Raw(SpellWords(words))) == NamingAProgram(MeanWords(words))
  {
    var text := SpellWords(words);
    ValueItemsMean(text);
    ValueComplete(ValueItems(text));
    WordsComplete("", words);
    assert "" + text == text;
  }

  lemma {:induction false} OpenQuoteIsNeverClosed(body: seq<QuotedChar>)
    requires ValidBody(body)
    ensures ReadArgument(SpellBody(body, ""), true) == None
  {
    if body != [] {
      OpenQuoteIsNeverClosed(body[1..]);
      match body[0] {
        case Literal(c) => ReadLiteral(c, SpellBody(body[1..], ""));
        case Escaped(c) => ReadEscaped(c, SpellBody(body[1..], ""));
      }
    }
  }

  lemma UnterminatedIsRefused(s: string)
    ensures ReadValue("\"" + Escape(s)) == None
  {
    var text := SpellBody(QuotedBody(s), "");
    QuotedBodySpells(s, "");
    assert Escape(s) + Raw("") == Escape(s);
    RawCons('"', text);
    ValueItemsMean(['"'] + text);
    ValueComplete(ValueItems(['"'] + text));
    OpenQuoteIsNeverClosed(QuotedBody(s));
    ReadQuote(text, false);
    assert TrimStart(['"'] + text) == ['"'] + text;
  }

  lemma LetterIsBare(c: char)
    requires c == '-' || 'a' <= c <= 'z'
    ensures ValidPiece(Bare(c)) && c != '%' && !IsWhitespace(c)
  {
  }

  lemma FlagIsBare()
    ensures Bareword(FLAG)
  {
    forall i | 0 <= i < |FLAG|
      ensures ValidPiece(Bare(FLAG[i])) && FLAG[i] != '%' && !IsWhitespace(FLAG[i])
    {
      LetterIsBare(FLAG[i]);
    }
  }

  lemma OneLineValue(exec: string, arg: string)
    requires '\n' !in exec && Bareword(arg)
    ensures var value := Quoted(exec) + (" " + arg);
      && '\n' !in value && value[0] == '"' && TrimEnd(StripCr(value)) == value
  {
    var value, last := Quoted(exec) + (" " + arg), arg[|arg| - 1];
    EscapeKeepsOneLine(exec);
    forall i | 0 <= i < |arg| ensures arg[i] != '\n' {
      assert ValidPiece(Bare(arg[i]));
    }
    assert value[|value| - 1] == last && !IsWhitespace(last);
  }

  lemma EntryOnOneLine(exec: string)
    requires '\n' !in exec
    ensures ExecArguments(EntryText(exec)) == NamingAProgram([exec, FLAG])
  {
    FlagIsBare();
    OneLineValue(exec, FLAG);
    var after := KeyLines(KEYS_AFTER);
    EntryValues(Quoted(exec) + (" " + FLAG), after);
    assert after + "" == after;
    EntryKeys();
    OtherKeysAreSkipped(KEYS_AFTER, "", true);
    ProgramAndBareword(exec, FLAG);
  }

  /** A value that goes on after a line feed, as the scanner sees it. */
  lemma BrokenExecLine(line: string, more: string, after: string)
    ensures "Exec" + ['='] + (line + "\n" + more) + "\n" + after
         == "Exec" + ['='] + line + "\n" + (more + "\n" + after)
  {
  }

  lemma BrokenQuotes(first: string, more: string, after: string)
    ensures "\"" + (first + "\n" + more) + "\"" + after
         == "\"" + first + "\n" + (more + "\"" + after)
  {
  }

  /** The quoted path and what follows it, broken at the first line feed. */
  lemma QuotedBreaks(exec: string, first: string, more: string)
    requires exec == first + ['\n'] + more
    ensures Quoted(exec) + (" " + FLAG)
         == "\"" + Escape(first) + "\n" + (Escape(more) + "\"" + (" " + FLAG))
  {
    EscapeConcat(first + ['\n'], more);
    EscapeAppend(first, '\n');
    BrokenQuotes(Escape(first), Escape(more), " " + FLAG);
  }

  lemma EntryBreaks(exec: string, line: string, tail: string)
    requires Quoted(exec) + (" " + FLAG) == line + "\n" + tail
    requires '\n' !in line && line != "" && line[0] == '"'
    ensures exists rest :: ValuesIn(EntryText(exec), false) == [TrimEnd(StripCr(line))] + ValuesIn(rest, true)
  {
    BrokenExecLine(line, tail, KeyLines(KEYS_AFTER));
    EntryValues(line, tail + "\n" + KeyLines(KEYS_AFTER));
  }

  lemma BrokenIsRefused(first: string, entry: string, rest: string)
    requires ValuesIn(entry, false) == [TrimEnd(StripCr("\"" + Escape(first)))] + ValuesIn(rest, true)
    ensures ExecArguments(entry) == None
  {
    StripCrEscaped("\"", first);
    TrimEndEscaped("\"", StripCr(first));
    UnterminatedIsRefused(TrimEnd(StripCr(first)));
  }

  lemma EntryOnTwoLines(exec: string)
    requires '\n' in exec
    ensures ExecArguments(EntryText(exec)) == None
  {
    SplitOnceSplits(exec, '\n');
    var first, more := SplitOnce(exec, '\n').value.0, SplitOnce(exec, '\n').value.1;
    var line, tail := "\"" + Escape(first), Escape(more) + "\"" + (" " + FLAG);
    QuotedBreaks(exec, first, more);
    EscapeKeepsOneLine(first);
    EntryBreaks(exec, line, tail);
    var rest :| ValuesIn(EntryText(exec), false) == [TrimEnd(StripCr(line))] + ValuesIn(rest, true);
    BrokenIsRefused(first, EntryText(exec), rest);
  }

  /** The entry the writer writes is read back as exactly the program and the
      flag, for every path but two kinds, and those it reads as nothing. */
  lemma EntryReadsBack(exec: string)
    ensures ExecArguments(EntryText(exec))
         == if exec != "" && '\n' !in exec then Some([exec, "--background"]) else None
  {
    if '\n' in exec {
      EntryOnTwoLines(exec);
    } else {
      EntryOnOneLine(exec);
    }
  }

  // ------------------------------------------------- reserved characters

  /** Whether what follows `s` stands inside double quotes, where `s` itself starts
      inside them or not. */
  predicate InQuotes(s: string, quoted: bool)
    decreases |s|
  {
    if s == "" then quoted
    else if s[0] == '"' then InQuotes(s[1..], !quoted)
    else if quoted && s[0] == '\\' && |s| > 1 then InQuotes(s[2..], true)
    else InQuotes(s[1..], quoted)
  }

  lemma InQuotesFrom(s: string, n: nat, i: nat, quoted: bool)
    requires n <= i <= |s| && (n == 1 || n == 2) && |s| >= n
    requires n == 2 <==> quoted && s[0] == '\\' && i > 1
    ensures InQuotes(s[..i], quoted)
         == InQuotes(s[n..][..i - n], if s[0] == '"' then !quoted else quoted)
  {
    assert s[..i][n..] == s[n..][..i - n] && s[..i][0] == s[0];
  }

  /** As far as an argument was read, nothing reserved stands outside quotes. */
  lemma {:induction false} ArgumentIsClean(s: string, quoted: bool, i: nat)
    requires ReadArgument(s, quoted).Some?
    requires i <= |s| - |ReadArgument(s, quoted).value.rest|
    ensures i < |s| - |ReadArgument(s, quoted).value.rest| && !InQuotes(s[..i], quoted) ==>
      s[i] !in RESERVED
    ensures i == |s| - |ReadArgument(s, quoted).value.rest| ==>
      !InQuotes(s[..i], quoted) && s[i..] == ReadArgument(s, quoted).value.rest
    decreases |s|
  {
    if s == "" {
    } else if !quoted && Separator(s[0]) {
      assert s[..0] == "" && s[..1][1..] == "";
    } else {
      var n := if quoted && s[0] == '\\' then 2 else 1;
      if i >= n {
        InQuotesFrom(s, n, i, quoted);
        ArgumentIsClean(s[n..], if s[0] == '"' then !quoted else quoted, i - n);
        assert i < |s| ==> s[n..][i - n] == s[i];
        assert s[n..][i - n..] == s[i..];
      } else {
        SetsAreTheStandards(s[0]);
        if i == 1 {
          assert s[..1][1..] == "" && InQuotes(s[..1], true);
        } else {
          assert s[..0] == "" && InQuotes("", quoted) == quoted;
        }
      }
    }
  }

  lemma {:induction false} QuotesSplit(a: string, b: string, quoted: bool)
    requires !InQuotes(a, quoted)
    ensures InQuotes(a + b, quoted) == InQuotes(b, false)
    decreases |a|
  {
    if a == "" {
      assert a + b == b;
    } else if a[0] == '"' {
      assert (a + b)[1..] == a[1..] + b;
      QuotesSplit(a[1..], b, !quoted);
    } else if quoted && a[0] == '\\' && |a| > 1 {
      assert (a + b)[2..] == a[2..] + b;
      QuotesSplit(a[2..], b, true);
    } else {
      if |a| == 1 {
        assert a[1..] == "";
      }
      assert (a + b)[1..] == a[1..] + b;
      QuotesSplit(a[1..], b, quoted);
    }
  }

  lemma {:induction false} BlankIsOutside(lead: string)
    requires AllWhitespace(lead)
    ensures !InQuotes(lead, false)
  {
    if lead != "" {
      BlankIsOutside(lead[1..]);
    }
  }

  lemma AfterLead(lead: string, s: string, i: nat)
    requires AllWhitespace(lead) && |lead| <= i < |lead + s| && !InQuotes((lead + s)[..i], false)
    ensures !InQuotes(s[..i - |lead|], false) && s[i - |lead|] == (lead + s)[i]
  {
    BlankIsOutside(lead);
    assert (lead + s)[..i] == lead + s[..i - |lead|];
    QuotesSplit(lead, s[..i - |lead|], false);
  }

  lemma AfterArgument(s: string, n: nat, i: nat)
    requires ReadArgument(s, false).Some? && n == |s| - |ReadArgument(s, false).value.rest|
    requires n <= i < |s| && !InQuotes(s[..i], false)
    ensures var rest := ReadArgument(s, false).value.rest;
      !InQuotes(rest[..i - n], false) && rest[i - n] == s[i]
  {
    var rest := ReadArgument(s, false).value.rest;
    ArgumentIsClean(s, false, n);
    assert s[..i] == s[..n] + rest[..i - n];
    QuotesSplit(s[..n], rest[..i - n], false);
  }

  lemma {:induction false} ArgumentsAreClean(v: string, i: nat)
    requires ReadArguments(v).Some? && i < |v| && !InQuotes(v[..i], false)
    ensures v[i] !in RESERVED
    decreases |v|, 1
  {
    var s := TrimStart(v);
    var lead := TrimStartSplit(v);
    if i < |lead| {
      assert IsWhitespace(lead[i]);
    } else {
      AfterLead(lead, s, i);
      CleanAfterLead(s, i - |lead|);
    }
  }

  lemma {:induction false} CleanAfterLead(s: string, i: nat)
    requires s != "" && !IsWhitespace(s[0]) && ReadArguments(s).Some?
    requires i < |s| && !InQuotes(s[..i], false)
    ensures s[i] !in RESERVED
    decreases |s|, 0
  {
    var rest := ReadArgument(s, false).value.rest;
    var n := |s| - |rest|;
    if i < n {
      ArgumentIsClean(s, false, i);
    } else {
      AfterArgument(s, n, i);
      ArgumentsAreClean(rest, i - n);
    }
  }

  /** A value that holds one of the thirteen outside double quotes, once its own
      escapes are undone, is never read. */
  lemma ReservedIsNeverRead(value: string, text: string, i: nat)
    requires Unescaped(value) == Some(text) && i < |text|
    requires text[i] in {'\'', '\\', '>', '<', '~', '|', '&', ';', '$', '*', '?', '#', '`'}
    requires !InQuotes(text[..i], false)
    ensures ReadValue(value) == None
  {
    if ReadArguments(text).Some? {
      ArgumentsAreClean(text, i);
    }
  }

  /** Section 7 of the Desktop Entry Specification reserves the parentheses too; the
      reader takes them as they come. */
  lemma ParenthesesAreRead(value: string)
    requires value == "(a)"
    ensures ReadValue(value) == Some([value])
  {
    assert forall i :: 0 <= i < |value| ==> ValidPiece(Bare(value[i]));
    BarewordWord(value);
    RawPlain(value);
    ReadFromWords([Word(BarePieces(value), "")]);
  }
}
