/** A declarative grammar of an `Exec` value, layer by layer: derivation trees,
    how a tree is spelled and what it means. The reader of `DesktopEntry` finds
    a derivation exactly when there is one, and returns its meaning. */
module ExecGrammar {
  import opened Wrappers
  import opened Text
  import opened DesktopEntry

  // ------------------------------------ layer 1: a desktop-entry string value

  datatype ValueItem = Plain(c: char) | Backslashed(letter: char)

  /** What a letter after a backslash stands for (section 4 of the Desktop Entry
      Specification). */
  const STRING_ESCAPES: map<char, char> :=
    map['s' := ' ', 'n' := '\n', 't' := '\t', 'r' := '\r', '\\' := '\\']

  lemma EscapesAreTheStandards(letter: char)
    ensures EscapeMeaning(letter)
         == if letter in STRING_ESCAPES then Some(STRING_ESCAPES[letter]) else None
  {
  }

  predicate ValidItem(item: ValueItem) {
    match item
    case Plain(c) => c != '\\'
    case Backslashed(letter) => letter in STRING_ESCAPES
  }

  predicate ValidValue(items: seq<ValueItem>) {
    forall i :: 0 <= i < |items| ==> ValidItem(items[i])
  }

  function SpellValue(items: seq<ValueItem>): string {
    if items == [] then ""
    else
      (match items[0]
       case Plain(c) => [c]
       case Backslashed(letter) => ['\\', letter]) + SpellValue(items[1..])
  }

  function MeanValue(items: seq<ValueItem>): string
    requires ValidValue(items)
  {
    if items == [] then ""
    else
      (match items[0]
       case Plain(c) => [c]
       case Backslashed(letter) => [STRING_ESCAPES[letter]]) + MeanValue(items[1..])
  }

  lemma {:induction false} ValueComplete(items: seq<ValueItem>)
    requires ValidValue(items)
    ensures Unescaped(SpellValue(items)) == Some(MeanValue(items))
  {
    if items != [] {
      ValueComplete(items[1..]);
      var rest := SpellValue(items[1..]);
      match items[0] {
        case Plain(c) => assert ([c] + rest)[1..] == rest;
        case Backslashed(letter) =>
          EscapesAreTheStandards(letter);
          assert (['\\', letter] + rest)[2..] == rest;
      }
    }
  }

  lemma {:induction false} ValueSound(v: string) returns (items: seq<ValueItem>)
    requires Unescaped(v).Some?
    ensures ValidValue(items) && SpellValue(items) == v && MeanValue(items) == Unescaped(v).value
  {
    if v == "" {
      items := [];
    } else if v[0] != '\\' {
      var rest := ValueSound(v[1..]);
      items := [Plain(v[0])] + rest;
      assert items[1..] == rest;
    } else {
      var rest := ValueSound(v[2..]);
      EscapesAreTheStandards(v[1]);
      items := [Backslashed(v[1])] + rest;
      assert items[1..] == rest && v == ['\\', v[1]] + v[2..];
    }
  }

  // ------------------------------------------- layer 2: quoting of arguments

  datatype QuotedChar = Literal(c: char) | Escaped(c: char)

  datatype Piece = Bare(c: char) | Quotes(body: seq<QuotedChar>)

  /** An argument, and the whitespace between it and the next one. */
  datatype Word = Word(pieces: seq<Piece>, gap: string)

  /** What is reserved outside double quotes, blanks and the quote apart, as far
      as the reader goes along with section 7 of the Desktop Entry Specification,
      which has the parentheses as well. */
  const RESERVED: set<char> :=
    {'\'', '\\', '>', '<', '~', '|', '&', ';', '$', '*', '?', '#', '`'}

  /** What a backslash goes before inside them. */
  const ESCAPED: set<char> := {'"', '`', '$', '\\'}

  const SEPARATORS: set<char> := {' ', '\t', '\n', '\r'}

  lemma SetsAreTheStandards(c: char)
    ensures Reserved(c) <==> c in RESERVED
    ensures Escapable(c) <==> c in ESCAPED
    ensures Separator(c) <==> c in SEPARATORS
  {
  }

  predicate ValidQuotedChar(q: QuotedChar) {
    match q
    case Literal(c) => c !in ESCAPED
    case Escaped(c) => c in ESCAPED
  }

  predicate ValidBody(body: seq<QuotedChar>) {
    forall i :: 0 <= i < |body| ==> ValidQuotedChar(body[i])
  }

  predicate ValidPiece(p: Piece) {
    match p
    case Bare(c) => c != '"' && c !in RESERVED && c !in SEPARATORS
    case Quotes(body) => ValidBody(body)
  }

  predicate ValidPieces(pieces: seq<Piece>) {
    forall i :: 0 <= i < |pieces| ==> ValidPiece(pieces[i])
  }

  /** An argument does not start with whitespace of any kind, though further in
      it may hold every kind but the separators. */
  predicate ValidArgument(pieces: seq<Piece>) {
    && pieces != []
    && ValidPieces(pieces)
    && (pieces[0].Bare? ==> !IsWhitespace(pieces[0].c))
  }

  /** One of the four separators first, then whitespace of any kind. */
  predicate ValidGap(gap: string) {
    gap != "" && gap[0] in SEPARATORS && AllWhitespace(gap)
  }

  predicate ValidWords(words: seq<Word>) {
    forall i :: 0 <= i < |words| ==>
      && ValidArgument(words[i].pieces)
      && (ValidGap(words[i].gap) || (i == |words| - 1 && words[i].gap == ""))
  }

  // Each tree is spelled, and each meaning given, in front of what follows it.

  function SpellBody(body: seq<QuotedChar>, tail: string): string {
    if body == [] then tail
    else
      match body[0]
      case Literal(c) => [c] + SpellBody(body[1..], tail)
      case Escaped(c) => ['\\', c] + SpellBody(body[1..], tail)
  }

  function MeanBody(body: seq<QuotedChar>, tail: string): string {
    if body == [] then tail else [body[0].c] + MeanBody(body[1..], tail)
  }

  function SpellPieces(pieces: seq<Piece>, tail: string): string {
    if pieces == [] then tail
    else
      var rest := SpellPieces(pieces[1..], tail);
      match pieces[0]
      case Bare(c) => [c] + rest
      case Quotes(body) => ['"'] + SpellBody(body, ['"'] + rest)
  }

  function MeanPieces(pieces: seq<Piece>, tail: string): string {
    if pieces == [] then tail
    else
      var rest := MeanPieces(pieces[1..], tail);
      match pieces[0]
      case Bare(c) => [c] + rest
      case Quotes(body) => MeanBody(body, rest)
  }

  function SpellWords(words: seq<Word>): string {
    if words == [] then ""
    else SpellPieces(words[0].pieces, words[0].gap + SpellWords(words[1..]))
  }

  /** Field codes stay; only `%%` means something here, across quotes too. */
  function MeanWords(words: seq<Word>): seq<string> {
    if words == [] then []
    else [Undoubled(MeanPieces(words[0].pieces, ""))] + MeanWords(words[1..])
  }

  // ------------------------------------------------------------ completeness

  lemma ReadQuote(rest: string, quoted: bool)
    ensures ReadArgument(['"'] + rest, quoted) == ReadArgument(rest, !quoted)
  {
    assert (['"'] + rest)[1..] == rest;
  }

  lemma ReadLiteral(c: char, rest: string)
    requires !Escapable(c)
    ensures ReadArgument([c] + rest, true) == PrependArgument([c], ReadArgument(rest, true))
  {
    assert ([c] + rest)[1..] == rest;
  }

  lemma ReadEscaped(c: char, rest: string)
    requires Escapable(c)
    ensures ReadArgument(['\\', c] + rest, true) == PrependArgument([c], ReadArgument(rest, true))
  {
    assert (['\\', c] + rest)[2..] == rest;
  }

  lemma ReadBare(c: char, rest: string)
    requires ValidPiece(Bare(c))
    ensures ReadArgument([c] + rest, false) == PrependArgument([c], ReadArgument(rest, false))
  {
    assert ([c] + rest)[1..] == rest;
  }

  lemma ReadSeparator(c: char, rest: string)
    requires Separator(c)
    ensures ReadArgument([c] + rest, false) == Some(Argument("", rest))
  {
    assert ([c] + rest)[1..] == rest;
  }

  lemma {:induction false} BodyComplete(body: seq<QuotedChar>, rest: string, a: Argument)
    requires ValidBody(body) && ReadArgument(rest, true) == Some(a)
    ensures ReadArgument(SpellBody(body, rest), true)
         == Some(Argument(MeanBody(body, a.text), a.rest))
  {
    if body != [] {
      BodyComplete(body[1..], rest, a);
      match body[0] {
        case Literal(c) => ReadLiteral(c, SpellBody(body[1..], rest));
        case Escaped(c) => ReadEscaped(c, SpellBody(body[1..], rest));
      }
    }
  }

  lemma {:induction false} PiecesComplete(pieces: seq<Piece>, rest: string, a: Argument)
    requires ValidPieces(pieces) && ReadArgument(rest, false) == Some(a)
    ensures ReadArgument(SpellPieces(pieces, rest), false)
         == Some(Argument(MeanPieces(pieces, a.text), a.rest))
  {
    if pieces != [] {
      PiecesComplete(pieces[1..], rest, a);
      var more := SpellPieces(pieces[1..], rest);
      match pieces[0] {
        case Bare(c) => ReadBare(c, more);
        case Quotes(body) =>
          ReadQuote(more, true);
          BodyComplete(body, ['"'] + more, ReadArgument(more, false).value);
          ReadQuote(SpellBody(body, ['"'] + more), false);
      }
    }
  }

  lemma SpelledArgumentStarts(pieces: seq<Piece>, tail: string)
    requires ValidArgument(pieces)
    ensures SpellPieces(pieces, tail) != "" && !IsWhitespace(SpellPieces(pieces, tail)[0])
  {
  }

  lemma ReadArgumentsNext(lead: string, s: string, a: Argument)
    requires AllWhitespace(lead) && s != "" && !IsWhitespace(s[0])
    requires ReadArgument(s, false) == Some(a)
    ensures ReadArguments(lead + s) == PrependArgs([Undoubled(a.text)], ReadArguments(a.rest))
  {
    TrimStartUnique(lead, s);
  }

  /** What a gap leaves of itself to the next argument's leading whitespace. */
  function AfterGap(gap: string): string {
    if gap == "" then "" else gap[1..]
  }

  lemma WordComplete(lead: string, w: Word, after: string)
    requires AllWhitespace(lead) && ValidArgument(w.pieces)
    requires ValidGap(w.gap) || (w.gap == "" && after == "")
    ensures ReadArguments(lead + SpellPieces(w.pieces, w.gap + after))
         == PrependArgs([Undoubled(MeanPieces(w.pieces, ""))], ReadArguments(AfterGap(w.gap) + after))
  {
    var rest := w.gap + after;
    var a := Argument("", AfterGap(w.gap) + after);
    if w.gap != "" {
      assert rest == [w.gap[0]] + (w.gap[1..] + after);
      ReadSeparator(w.gap[0], w.gap[1..] + after);
    }
    assert ReadArgument(rest, false) == Some(a);
    PiecesComplete(w.pieces, rest, a);
    SpelledArgumentStarts(w.pieces, rest);
    ReadArgumentsNext(lead, SpellPieces(w.pieces, rest), Argument(MeanPieces(w.pieces, ""), a.rest));
  }

  lemma {:induction false} WordsComplete(lead: string, words: seq<Word>)
    requires AllWhitespace(lead) && ValidWords(words)
    ensures ReadArguments(lead + SpellWords(words)) == Some(MeanWords(words))
    decreases |words|
  {
    if words == [] {
      TrimStartUnique(lead, "");
    } else {
      WordComplete(lead, words[0], SpellWords(words[1..]));
      WordsComplete(AfterGap(words[0].gap), words[1..]);
    }
  }

  // --------------------------------------------------------------- soundness

  /** What ended an argument: a separator, or the end of the value. */
  predicate ValidEnd(end: string, rest: string) {
    if end == "" then rest == "" else |end| == 1 && Separator(end[0])
  }

  /** A tree for what `ReadArgument` reads from `s`. Started inside quotes it
      reads the rest of that quoted stretch, `body`, first. */
  ghost predicate Explains(s: string, quoted: bool,
                           body: seq<QuotedChar>, pieces: seq<Piece>, end: string)
  {
    match ReadArgument(s, quoted)
    case None => false
    case Some(Argument(text, rest)) =>
      && ValidBody(body) && ValidPieces(pieces) && ValidEnd(end, rest)
      && var spelled := SpellPieces(pieces, end + rest);
         var meant := MeanPieces(pieces, "");
         if quoted then s == SpellBody(body, ['"'] + spelled) && text == MeanBody(body, meant)
         else s == spelled && text == meant
  }

  lemma {:induction false} PiecesSound(s: string, quoted: bool)
    returns (body: seq<QuotedChar>, pieces: seq<Piece>, end: string)
    requires ReadArgument(s, quoted).Some?
    ensures Explains(s, quoted, body, pieces, end)
    decreases |s|
  {
    body, pieces, end := [], [], "";
    if s == "" {
    } else if s[0] == '"' {
      var b, ps;
      b, ps, end := PiecesSound(s[1..], !quoted);
      assert s == ['"'] + s[1..];
      pieces := if quoted then ps else [Quotes(b)] + ps;
      assert !quoted ==> pieces[1..] == ps;
    } else if !quoted && Separator(s[0]) {
      end := [s[0]];
      assert s == end + s[1..];
    } else if quoted {
      var q := if s[0] == '\\' then Escaped(s[1]) else Literal(s[0]);
      var b;
      b, pieces, end := PiecesSound(if q.Escaped? then s[2..] else s[1..], true);
      body := [q] + b;
      assert body[1..] == b;
      assert s == if q.Escaped? then ['\\', s[1]] + s[2..] else [s[0]] + s[1..];
    } else {
      var b, ps;
      b, ps, end := PiecesSound(s[1..], false);
      pieces := [Bare(s[0])] + ps;
      assert pieces[1..] == ps && s == [s[0]] + s[1..];
    }
  }

  /** A tree for the whole value, `lead` being the whitespace before it. */
  ghost predicate ExplainsAll(v: string, lead: string, words: seq<Word>) {
    && AllWhitespace(lead) && ValidWords(words)
    && v == lead + SpellWords(words)
    && ReadArguments(v) == Some(MeanWords(words))
  }

  lemma NoTextNoWords(words: seq<Word>)
    requires ValidWords(words)
    ensures SpellWords(words) == "" ==> words == []
  {
    if words != [] {
      SpelledArgumentStarts(words[0].pieces, words[0].gap + SpellWords(words[1..]));
    }
  }

  lemma WordsCons(w: Word, words: seq<Word>)
    requires ValidArgument(w.pieces) && ValidWords(words)
    requires ValidGap(w.gap) || (w.gap == "" && words == [])
    ensures ValidWords([w] + words)
    ensures SpellWords([w] + words) == SpellPieces(w.pieces, w.gap + SpellWords(words))
    ensures MeanWords([w] + words) == [Undoubled(MeanPieces(w.pieces, ""))] + MeanWords(words)
  {
    var all := [w] + words;
    assert all[1..] == words && all[0] == w;
    forall i | 0 <= i < |all|
      ensures ValidArgument(all[i].pieces)
      ensures ValidGap(all[i].gap) || (i == |all| - 1 && all[i].gap == "")
    {
      if i > 0 {
        assert all[i] == words[i - 1];
      }
    }
  }

  lemma GapSound(end: string, gap: string, rest: string, words: seq<Word>)
    requires ValidEnd(end, rest) && AllWhitespace(gap) && ValidWords(words)
    requires rest == gap + SpellWords(words)
    ensures ValidGap(end + gap) || (end + gap == "" && words == [])
  {
    if end == "" {
      NoTextNoWords(words);
    } else {
      assert IsWhitespace(end[0]);
    }
  }

  lemma WordSound(lead: string, s: string, pieces: seq<Piece>, end: string, gap: string,
                  words: seq<Word>)
    requires AllWhitespace(lead) && s != "" && !IsWhitespace(s[0])
    requires Explains(s, false, [], pieces, end)
    requires ExplainsAll(ReadArgument(s, false).value.rest, gap, words)
    ensures ExplainsAll(lead + s, lead, [Word(pieces, end + gap)] + words)
  {
    var rest := ReadArgument(s, false).value.rest;
    GapSound(end, gap, rest, words);
    WordsCons(Word(pieces, end + gap), words);
    ReadArgumentsNext(lead, s, ReadArgument(s, false).value);
    Regroup(end, gap, SpellWords(words));
  }

  lemma {:induction false} WordsSound(v: string) returns (lead: string, words: seq<Word>)
    requires ReadArguments(v).Some?
    ensures ExplainsAll(v, lead, words)
    decreases |v|
  {
    var s := TrimStart(v);
    lead := TrimStartSplit(v);
    words := [];
    if s != "" {
      var body, pieces, end := PiecesSound(s, false);
      var gap, more := WordsSound(ReadArgument(s, false).value.rest);
      WordSound(lead, s, pieces, end, gap, more);
      words := [Word(pieces, end + gap)] + more;
    }
  }

  // ----------------------------------------------------------- percent signs

  /** An argument's text, from left to right: two percent signs that stand for
      one, and every other character for itself. */
  datatype Percent = Doubled | Single(c: char)

  /** A percent sign stands alone only where no other follows. */
  predicate ValidPercents(units: seq<Percent>) {
    forall i :: 0 <= i < |units| - 1 && units[i] == Single('%') ==>
      units[i + 1].Single? && units[i + 1].c != '%'
  }

  function SpellPercents(units: seq<Percent>): string {
    if units == [] then ""
    else
      (match units[0]
       case Doubled => ['%', '%']
       case Single(c) => [c]) + SpellPercents(units[1..])
  }

  function MeanPercents(units: seq<Percent>): string {
    if units == [] then ""
    else
      (match units[0]
       case Doubled => ['%']
       case Single(c) => [c]) + MeanPercents(units[1..])
  }

  ghost predicate MeansBy(text: string, arg: string, units: seq<Percent>) {
    ValidPercents(units) && SpellPercents(units) == text && MeanPercents(units) == arg
  }

  ghost predicate Means(text: string, arg: string) {
    exists units :: MeansBy(text, arg, units)
  }

  lemma PercentsCons(unit: Percent, units: seq<Percent>)
    requires ValidPercents(units)
    requires unit == Single('%') && units != [] ==> units[0].Single? && units[0].c != '%'
    ensures ValidPercents([unit] + units)
    ensures SpellPercents([unit] + units)
         == (if unit.Doubled? then ['%', '%'] else [unit.c]) + SpellPercents(units)
    ensures MeanPercents([unit] + units) == (if unit.Doubled? then ['%'] else [unit.c]) + MeanPercents(units)
  {
    var all := [unit] + units;
    assert all[1..] == units && all[0] == unit;
    forall i | 0 <= i < |all| - 1 && all[i] == Single('%')
      ensures all[i + 1].Single? && all[i + 1].c != '%'
    {
      assert all[i + 1] == units[i] && (i > 0 ==> units[i - 1] == all[i]);
    }
  }

  lemma {:induction false} PercentsSound(text: string) returns (units: seq<Percent>)
    ensures MeansBy(text, Undoubled(text), units)
  {
    if text == "" {
      units := [];
    } else {
      var unit := if |text| >= 2 && text[0] == text[1] == '%' then Doubled else Single(text[0]);
      var n := if unit.Doubled? then 2 else 1;
      var more := PercentsSound(text[n..]);
      assert text == (if unit.Doubled? then ['%', '%'] else [unit.c]) + text[n..];
      PercentsCons(unit, more);
      units := [unit] + more;
    }
  }

  lemma {:induction false} PercentsComplete(units: seq<Percent>)
    requires ValidPercents(units)
    ensures Undoubled(SpellPercents(units)) == MeanPercents(units)
  {
    if units != [] {
      var more := units[1..];
      forall i | 0 <= i < |more| - 1 && more[i] == Single('%')
        ensures more[i + 1].Single? && more[i + 1].c != '%'
      {
        assert units[i + 1] == more[i] && units[i + 2] == more[i + 1];
      }
      PercentsComplete(more);
      var rest, text := SpellPercents(more), SpellPercents(units);
      match units[0] {
        case Doubled =>
          assert text[2..] == rest;
        case Single(c) =>
          assert text[1..] == rest;
          if c == '%' && more != [] {
            assert units[1] == more[0] && rest[0] == more[0].c;
          }
      }
    }
  }

  /** Undoing `%%` is reading the text so: a percent sign of its own, as in a
      field code, is kept. */
  lemma UndoubledExactly(text: string, arg: string)
    ensures Undoubled(text) == arg <==> Means(text, arg)
  {
    var units := PercentsSound(text);
    if units :| MeansBy(text, arg, units) {
      PercentsComplete(units);
    }
  }

  /** The words mean the arguments, one each. */
  ghost predicate WordsMean(words: seq<Word>, args: seq<string>) {
    |words| == |args| && forall i :: 0 <= i < |words| ==> Means(MeanPieces(words[i].pieces, ""), args[i])
  }

  lemma {:induction false} WordsMeanExactly(words: seq<Word>, args: seq<string>)
    ensures MeanWords(words) == args <==> WordsMean(words, args)
  {
    if words != [] && args != [] {
      WordsMeanExactly(words[1..], args[1..]);
      UndoubledExactly(MeanPieces(words[0].pieces, ""), args[0]);
      WordsMeanCons(words, args);
      assert args == [args[0]] + args[1..];
    }
  }

  lemma WordsMeanCons(words: seq<Word>, args: seq<string>)
    requires words != [] && args != []
    ensures WordsMean(words, args)
       <==> Means(MeanPieces(words[0].pieces, ""), args[0]) && WordsMean(words[1..], args[1..])
  {
    if Means(MeanPieces(words[0].pieces, ""), args[0]) && WordsMean(words[1..], args[1..]) {
      forall i | 0 <= i < |words| ensures Means(MeanPieces(words[i].pieces, ""), args[i]) {
        assert i > 0 ==> words[1..][i - 1] == words[i] && args[1..][i - 1] == args[i];
      }
    }
    if WordsMean(words, args) {
      forall i | 0 <= i < |words| - 1 ensures Means(MeanPieces(words[1..][i].pieces, ""), args[1..][i]) {
        assert words[1..][i] == words[i + 1] && args[1..][i] == args[i + 1];
      }
    }
  }

  // -------------------------------------------------------- the two together

  /** `value` is spelled by a tree of the grammar that means `args`. */
  ghost predicate Derives(value: string, args: seq<string>) {
    exists items: seq<ValueItem>, lead: string, words: seq<Word> ::
      DerivesBy(value, args, items, lead, words)
  }

  ghost predicate DerivesBy(value: string, args: seq<string>,
                            items: seq<ValueItem>, lead: string, words: seq<Word>)
  {
    && ValidValue(items) && SpellValue(items) == value
    && AllWhitespace(lead) && ValidWords(words) && MeanValue(items) == lead + SpellWords(words)
    && WordsMean(words, args)
    && args != [] && args[0] != ""
  }

  lemma ReadsExactlyTheGrammar(value: string, args: seq<string>)
    ensures ReadValue(value) == Some(args) <==> Derives(value, args)
  {
    if ReadValue(value) == Some(args) {
      var items := ValueSound(value);
      var lead, words := WordsSound(Unescaped(value).value);
      WordsMeanExactly(words, args);
      assert DerivesBy(value, args, items, lead, words);
    }
    if Derives(value, args) {
      var items: seq<ValueItem>, lead: string, words: seq<Word> :|
        DerivesBy(value, args, items, lead, words);
      ValueComplete(items);
      WordsMeanExactly(words, args);
      WordsComplete(lead, words);
    }
  }

  // -------------------------------------------------------------- one tree only

  lemma ItemUnfolds(items: seq<ValueItem>)
    requires ValidValue(items) && items != []
    ensures var v := SpellValue(items);
      && v != "" && (v[0] == '\\' ==> |v| > 1)
      && items[0] == (if v[0] == '\\' then Backslashed(v[1]) else Plain(v[0]))
      && v[if v[0] == '\\' then 2 else 1..] == SpellValue(items[1..])
  {
    assert ValidItem(items[0]);
  }

  lemma {:induction false} ValueUnique(a: seq<ValueItem>, b: seq<ValueItem>)
    requires ValidValue(a) && ValidValue(b) && SpellValue(a) == SpellValue(b)
    ensures a == b
  {
    if a != [] && b != [] {
      ItemUnfolds(a);
      ItemUnfolds(b);
      ValueUnique(a[1..], b[1..]);
      assert a == [a[0]] + a[1..] && b == [b[0]] + b[1..];
    }
  }

  /** The first character tells what comes first, and what it leaves. */
  lemma BodyUnfolds(body: seq<QuotedChar>, tail: string)
    requires ValidBody(body)
    ensures var s := SpellBody(body, ['"'] + tail);
      && s != "" && (s[0] == '"' <==> body == [])
      && (body == [] ==> s[1..] == tail)
      && (body != [] ==>
            && (s[0] == '\\' <==> body[0].Escaped?)
            && (if s[0] == '\\' then |s| > 1 && body[0] == Escaped(s[1]) else body[0] == Literal(s[0]))
            && s[if s[0] == '\\' then 2 else 1..] == SpellBody(body[1..], ['"'] + tail))
  {
    if body != [] {
      assert ValidQuotedChar(body[0]);
    }
  }

  lemma {:induction false} BodyUnique(a: seq<QuotedChar>, b: seq<QuotedChar>, ta: string, tb: string)
    requires ValidBody(a) && ValidBody(b)
    requires SpellBody(a, ['"'] + ta) == SpellBody(b, ['"'] + tb)
    ensures a == b && ta == tb
  {
    BodyUnfolds(a, ta);
    BodyUnfolds(b, tb);
    if a != [] {
      BodyUnique(a[1..], b[1..], ta, tb);
      assert a == [a[0]] + a[1..] && b == [b[0]] + b[1..];
    }
  }

  /** What may follow an argument. */
  predicate Parts(tail: string) {
    tail == "" || Separator(tail[0])
  }

  lemma PiecesUnfold(pieces: seq<Piece>, tail: string)
    requires ValidPieces(pieces) && Parts(tail)
    ensures var s := SpellPieces(pieces, tail);
      && (pieces == [] <==> Parts(s))
      && (pieces != [] ==>
            && (s[0] == '"' <==> pieces[0].Quotes?)
            && (pieces[0].Bare? ==>
                  pieces[0] == Bare(s[0]) && s[1..] == SpellPieces(pieces[1..], tail))
            && (pieces[0].Quotes? ==>
                  s[1..] == SpellBody(pieces[0].body, ['"'] + SpellPieces(pieces[1..], tail))))
  {
    if pieces != [] {
      assert ValidPiece(pieces[0]);
    }
  }

  lemma {:induction false} PiecesUnique(a: seq<Piece>, b: seq<Piece>, ta: string, tb: string)
    requires ValidPieces(a) && ValidPieces(b) && Parts(ta) && Parts(tb)
    requires SpellPieces(a, ta) == SpellPieces(b, tb)
    ensures a == b && ta == tb
  {
    PiecesUnfold(a, ta);
    PiecesUnfold(b, tb);
    if a != [] {
      if a[0].Quotes? {
        BodyUnique(a[0].body, b[0].body, SpellPieces(a[1..], ta), SpellPieces(b[1..], tb));
      }
      PiecesUnique(a[1..], b[1..], ta, tb);
      assert a == [a[0]] + a[1..] && b == [b[0]] + b[1..];
    }
  }

  lemma LeadUnique(la: string, sa: string, lb: string, sb: string)
    requires AllWhitespace(la) && AllWhitespace(lb) && la + sa == lb + sb
    requires sa == "" || !IsWhitespace(sa[0])
    requires sb == "" || !IsWhitespace(sb[0])
    ensures la == lb && sa == sb
  {
    TrimStartUnique(la, sa);
    TrimStartUnique(lb, sb);
    assert la == (la + sa)[..|la|] && lb == (lb + sb)[..|lb|];
  }

  lemma WordsStart(words: seq<Word>)
    requires ValidWords(words)
    ensures SpellWords(words) == "" || !IsWhitespace(SpellWords(words)[0])
  {
    if words != [] {
      SpelledArgumentStarts(words[0].pieces, words[0].gap + SpellWords(words[1..]));
    }
  }

  /** What follows the first argument. */
  lemma WordsUnfold(words: seq<Word>)
    requires ValidWords(words) && words != []
    ensures ValidPieces(words[0].pieces) && AllWhitespace(words[0].gap)
    ensures Parts(words[0].gap + SpellWords(words[1..])) && ValidWords(words[1..])
  {
    if words[0].gap == "" {
      assert words[1..] == [];
    }
  }

  lemma {:induction false} WordsUnique(a: seq<Word>, b: seq<Word>)
    requires ValidWords(a) && ValidWords(b) && SpellWords(a) == SpellWords(b)
    ensures a == b
  {
    NoTextNoWords(a);
    NoTextNoWords(b);
    if a != [] && b != [] {
      var sa, sb := SpellWords(a[1..]), SpellWords(b[1..]);
      WordsUnfold(a);
      WordsUnfold(b);
      PiecesUnique(a[0].pieces, b[0].pieces, a[0].gap + sa, b[0].gap + sb);
      WordsStart(a[1..]);
      WordsStart(b[1..]);
      LeadUnique(a[0].gap, sa, b[0].gap, sb);
      WordsUnique(a[1..], b[1..]);
      assert a == [a[0]] + a[1..] && b == [b[0]] + b[1..];
    }
  }

  /** A value has one derivation at most: not only its meaning, the tree itself. */
  lemma DerivationIsUnique(value: string, args: seq<string>, items: seq<ValueItem>, lead: string,
                           words: seq<Word>, args2: seq<string>, items2: seq<ValueItem>,
                           lead2: string, words2: seq<Word>)
    requires DerivesBy(value, args, items, lead, words)
    requires DerivesBy(value, args2, items2, lead2, words2)
    ensures items == items2 && lead == lead2 && words == words2 && args == args2
  {
    ValueUnique(items, items2);
    WordsStart(words);
    WordsStart(words2);
    LeadUnique(lead, SpellWords(words), lead2, SpellWords(words2));
    WordsUnique(words, words2);
    WordsMeanExactly(words, args);
    WordsMeanExactly(words, args2);
  }
}
