/** Folding prose to a width, as the notes of `tobii bridge` are folded. */
module Folding {
  import opened Text

  type Words = seq<string>

  // -------------------------------------------------------------------- words

  function WordEnd(s: string): (n: nat)
    ensures n <= |s|
  {
    if s == "" || IsWhitespace(s[0]) then 0 else WordEnd(s[1..]) + 1
  }

  /** `str::split_whitespace` */
  function WordsOf(s: string): Words
    decreases |s|
  {
    if s == "" then []
    else if IsWhitespace(s[0]) then WordsOf(s[1..])
    else [s[..WordEnd(s)]] + WordsOf(s[WordEnd(s)..])
  }

  predicate IsWord(w: string) {
    w != "" && forall i :: 0 <= i < |w| ==> !IsWhitespace(w[i])
  }

  predicate AreWords(ws: Words) {
    forall i :: 0 <= i < |ws| ==> IsWord(ws[i])
  }

  // ------------------------------------------------------------------ folding

  /** Words on one line. */
  function Joined(ws: Words): string {
    if |ws| == 0 then ""
    else if |ws| == 1 then ws[0]
    else Joined(ws[..|ws| - 1]) + [' '] + ws[|ws| - 1]
  }

  /** The columns a line may take, and what every line starts with. */
  datatype Page = Page(indent: string, width: nat)

  /** Whether a line has no room left for another word. */
  predicate Full(page: Page, line: Words, word: string) {
    line != [] && |page.indent| + |Joined(line)| + 1 + |word| > page.width
  }

  /** The lines made of `words` when the last line so far holds `line`. */
  function Folded(page: Page, words: Words, line: Words): (lines: seq<Words>)
    ensures lines != []
  {
    if words == [] then [line]
    else if Full(page, line, words[0]) then [line] + Folded(page, words[1..], [words[0]])
    else Folded(page, words[1..], line + [words[0]])
  }

  function Printed(indent: string, lines: seq<Words>): string {
    if lines == [] then ""
    else if |lines| == 1 then indent + Joined(lines[0])
    else indent + Joined(lines[0]) + ['\n'] + Printed(indent, lines[1..])
  }

  lemma PrintedCons(indent: string, out: string, line: Words, lines: seq<Words>)
    requires lines != []
    ensures out + Printed(indent, [line] + lines)
         == out + indent + Joined(line) + ['\n'] + Printed(indent, lines)
  {
    assert ([line] + lines)[1..] == lines;
  }

  /** `wrapped` */
  method Wrapped(text: string, indent: string, width: nat) returns (out: string)
    ensures out == Printed(indent, Folded(Page(indent, width), WordsOf(text), []))
  {
    var words := WordsOf(text);
    out := "";
    var line := "";
    ghost var page := Page(indent, width);
    ghost var onLine: Words := [];
    assert words[0..] == words;
    WordsAreWords(text);
    for i := 0 to |words|
      invariant line == Joined(onLine) && (line == "" <==> onLine == [])
      invariant Printed(indent, Folded(page, words, []))
             == out + Printed(indent, Folded(page, words[i..], onLine))
    {
      var word := words[i];
      assert words[i..][1..] == words[i + 1..];
      if line != "" && |indent| + |line| + 1 + |word| > width {
        PrintedCons(indent, out, onLine, Folded(page, words[i + 1..], [word]));
        out := out + indent;
        out := out + line;
        out := out + ['\n'];
        line := "";
        onLine := [];
      }
      assert (onLine + [word])[..|onLine|] == onLine;
      if line != "" {
        line := line + [' '];
      }
      line := line + word;
      onLine := onLine + [word];
    }
    assert words[|words|..] == [];
    out := out + indent;
    out := out + line;
  }

  lemma {:induction false} WordEndIsWord(s: string)
    requires s != "" && !IsWhitespace(s[0])
    ensures IsWord(s[..WordEnd(s)])
    ensures WordEnd(s) < |s| ==> IsWhitespace(s[WordEnd(s)])
  {
    if |s| > 1 && !IsWhitespace(s[1]) {
      WordEndIsWord(s[1..]);
      assert s[..WordEnd(s)] == [s[0]] + s[1..][..WordEnd(s[1..])];
    } else {
      assert WordEnd(s[1..]) == 0;
    }
  }

  lemma {:induction false} WordsAreWords(s: string)
    ensures AreWords(WordsOf(s))
    decreases |s|
  {
    if s != "" {
      if IsWhitespace(s[0]) {
        WordsAreWords(s[1..]);
      } else {
        WordEndIsWord(s);
        WordsAreWords(s[WordEnd(s)..]);
      }
    }
  }

  // ------------------------------------------------------------ every folding

  function Flatten(lines: seq<Words>): Words {
    if lines == [] then [] else lines[0] + Flatten(lines[1..])
  }

  /** One word may be as long as it is; more than one keep to the width. */
  predicate Fits(page: Page, line: Words) {
    line != [] && (|line| == 1 || |page.indent| + |Joined(line)| <= page.width)
  }

  predicate IsFolding(page: Page, lines: seq<Words>, words: Words) {
    Flatten(lines) == words && forall i :: 0 <= i < |lines| ==> Fits(page, lines[i])
  }

  lemma JoinedAdd(line: Words, word: string)
    ensures Joined(line + [word]) == if line == [] then word else Joined(line) + [' '] + word
  {
    assert (line + [word])[..|line|] == line;
  }

  lemma {:induction false} FoldedIsFolding(page: Page, words: Words, line: Words)
    requires Fits(page, line) || (line == [] && words != [])
    ensures IsFolding(page, Folded(page, words, line), line + words)
    decreases |words|
  {
    if words == [] {
      assert Flatten([line][1..]) == [];
    } else {
      var word, rest := words[0], words[1..];
      JoinedAdd(line, word);
      if Full(page, line, word) {
        FoldedIsFolding(page, rest, [word]);
        var lines := Folded(page, rest, [word]);
        assert ([line] + lines)[1..] == lines;
        assert line + ([word] + rest) == line + words;
      } else {
        FoldedIsFolding(page, rest, line + [word]);
        assert line + [word] + rest == line + words;
      }
    }
  }

  // -------------------------------------------------------------- fewest lines

  lemma {:induction false} LongerLine(before: Words, line: Words)
    requires line != []
    ensures |Joined(before + line)| >= |Joined(line)|
    decreases |line|
  {
    var n := |line| - 1;
    assert line == line[..n] + [line[n]];
    assert before + line == (before + line[..n]) + [line[n]];
    JoinedAdd(line[..n], line[n]);
    JoinedAdd(before + line[..n], line[n]);
    if n > 0 {
      LongerLine(before, line[..n]);
    }
  }

  /** A line that is full stays full with words before it. */
  lemma FullStays(page: Page, before: Words, line: Words, word: string)
    requires Full(page, line, word)
    ensures Full(page, before + line, word)
  {
    LongerLine(before, line);
  }

  /** A shorter last line never takes more lines, and at most one line fewer. */
  lemma {:induction false} ShorterIsNoWorse(page: Page, words: Words, before: Words, line: Words)
    requires line != []
    ensures var short, long := |Folded(page, words, line)|, |Folded(page, words, before + line)|;
      short <= long <= short + 1
    decreases |words|
  {
    if words != [] {
      var word, rest := words[0], words[1..];
      if Full(page, line, word) {
        FullStays(page, before, line, word);
      } else if Full(page, before + line, word) {
        ShorterIsNoWorse(page, rest, line, [word]);
      } else {
        assert before + (line + [word]) == before + line + [word];
        ShorterIsNoWorse(page, rest, before, line + [word]);
      }
    }
  }

  lemma {:induction false} PrefixFits(page: Page, line: Words, n: nat)
    requires Fits(page, line) && 1 < n <= |line|
    ensures |page.indent| + |Joined(line[..n])| <= page.width
    decreases |line| - n
  {
    if n == |line| {
      assert line[..n] == line;
    } else {
      PrefixFits(page, line, n + 1);
      assert line[..n + 1] == line[..n] + [line[n]];
      JoinedAdd(line[..n], line[n]);
    }
  }

  /** Another line can take the word where its own next word still fits. */
  lemma NextWordFits(page: Page, line: Words, n: nat)
    requires Fits(page, line) && 0 < n < |line|
    ensures !Full(page, line[..n], line[n]) && line[..n + 1] == line[..n] + [line[n]]
  {
    PrefixFits(page, line, n + 1);
    assert line[..n + 1] == line[..n] + [line[n]];
    JoinedAdd(line[..n], line[n]);
  }

  /** Whether or not a line is broken before a word, it is no more than a line
      longer than what follows with that word begun anew. */
  lemma BreakCostsALine(page: Page, line: Words, words: Words)
    requires line != [] && words != []
    ensures |Folded(page, words, line)| <= 1 + |Folded(page, words[1..], [words[0]])|
  {
    ShorterIsNoWorse(page, words[1..], line, [words[0]]);
  }

  /** Against another folding, of whose first line `n` words are already on a
      line: the rest is folded into no more lines than it has. */
  lemma {:induction false} FoldedIsNoWorse(page: Page, lines: seq<Words>, n: nat)
    requires lines != [] && forall i :: 0 <= i < |lines| ==> Fits(page, lines[i])
    requires 0 < n <= |lines[0]|
    ensures |Folded(page, lines[0][n..] + Flatten(lines[1..]), lines[0][..n])| <= |lines|
    decreases |lines|, |lines[0]| - n
  {
    var first, later := lines[0], lines[1..];
    var words := first[n..] + Flatten(later);
    if n < |first| {
      NextWordFits(page, first, n);
      assert words[0] == first[n] && words[1..] == first[n + 1..] + Flatten(later);
      FoldedIsNoWorse(page, lines, n + 1);
    } else if later != [] {
      assert first[n..] == [] && words == Flatten(later);
      assert words[0] == later[0][0] && later[0][..1] == [words[0]];
      assert words[1..] == later[0][1..] + Flatten(later[1..]);
      FoldedIsNoWorse(page, later, 1);
      BreakCostsALine(page, first[..n], words);
    } else {
      assert words == [];
    }
  }

  /** For a text with a word in it: every word is there in its order, no line of
      more than one word is wider than the width, and no folding that keeps to
      that takes fewer lines. */
  lemma FoldsToFewest(page: Page, text: string, other: seq<Words>)
    requires WordsOf(text) != []
    ensures IsFolding(page, Folded(page, WordsOf(text), []), WordsOf(text))
    ensures IsFolding(page, other, WordsOf(text)) ==>
      |Folded(page, WordsOf(text), [])| <= |other|
  {
    var words := WordsOf(text);
    FoldedIsFolding(page, words, []);
    assert [] + words == words;
    if IsFolding(page, other, words) {
      assert other != [];
      var word := other[0][0];
      FoldedIsNoWorse(page, other, 1);
      assert other[0][..1] == [word] && [] + [word] == [word];
      assert words[0] == word && words[1..] == other[0][1..] + Flatten(other[1..]);
    }
  }

  // ------------------------------------------------------ the words come back

  lemma {:induction false} BlankSkipped(blank: string, s: string)
    requires AllWhitespace(blank)
    ensures WordsOf(blank + s) == WordsOf(s)
  {
    if blank == "" {
      assert blank + s == s;
    } else {
      assert (blank + s)[1..] == blank[1..] + s;
      BlankSkipped(blank[1..], s);
    }
  }

  predicate StartsBlank(s: string) {
    s == "" || IsWhitespace(s[0])
  }

  lemma {:induction false} WordEndConcat(w: string, s: string)
    requires forall i :: 0 <= i < |w| ==> !IsWhitespace(w[i])
    requires StartsBlank(s)
    ensures WordEnd(w + s) == |w|
  {
    if w == "" {
      assert w + s == s;
    } else {
      assert (w + s)[1..] == w[1..] + s;
      WordEndConcat(w[1..], s);
    }
  }

  lemma WordFirst(w: string, s: string)
    requires IsWord(w) && StartsBlank(s)
    ensures WordsOf(w + s) == [w] + WordsOf(s)
  {
    WordEndConcat(w, s);
    assert (w + s)[..|w|] == w && (w + s)[|w|..] == s;
  }

  lemma {:induction false} LineReadsBack(line: Words, s: string)
    requires AreWords(line) && StartsBlank(s)
    ensures WordsOf(Joined(line) + s) == line + WordsOf(s)
    decreases |line|
  {
    if |line| == 0 {
      assert Joined(line) + s == s && line + WordsOf(s) == WordsOf(s);
    } else {
      var n := |line| - 1;
      var word, more := line[n], line[..n];
      assert line == more + [word];
      WordFirst(word, s);
      if n > 0 {
        var tail := [' '] + (word + s);
        assert Joined(line) + s == Joined(more) + tail;
        BlankSkipped([' '], word + s);
        LineReadsBack(more, tail);
        assert more + ([word] + WordsOf(s)) == line + WordsOf(s);
      }
    }
  }

  lemma {:induction false} PrintedReadsBack(indent: string, lines: seq<Words>)
    requires AllWhitespace(indent) && forall i :: 0 <= i < |lines| ==> AreWords(lines[i])
    ensures WordsOf(Printed(indent, lines)) == Flatten(lines)
  {
    if |lines| == 1 {
      BlankSkipped(indent, Joined(lines[0]));
      LineReadsBack(lines[0], "");
      assert Joined(lines[0]) + "" == Joined(lines[0]);
      assert Flatten(lines[1..]) == [];
    } else if lines != [] {
      var tail := ['\n'] + Printed(indent, lines[1..]);
      assert Printed(indent, lines) == indent + (Joined(lines[0]) + tail);
      BlankSkipped(indent, Joined(lines[0]) + tail);
      LineReadsBack(lines[0], tail);
      BlankSkipped(['\n'], Printed(indent, lines[1..]));
      PrintedReadsBack(indent, lines[1..]);
    }
  }

  lemma {:induction false} FoldedAreWords(page: Page, words: Words, line: Words)
    requires AreWords(words) && AreWords(line)
    ensures forall i :: 0 <= i < |Folded(page, words, line)| ==> AreWords(Folded(page, words, line)[i])
    decreases |words|
  {
    if words != [] {
      if Full(page, line, words[0]) {
        FoldedAreWords(page, words[1..], [words[0]]);
      } else {
        FoldedAreWords(page, words[1..], line + [words[0]]);
      }
    }
  }

  /** Under an indent of whitespace, folding changes no word of the text. */
  lemma FoldingKeepsTheWords(page: Page, text: string)
    requires AllWhitespace(page.indent)
    ensures WordsOf(Printed(page.indent, Folded(page, WordsOf(text), []))) == WordsOf(text)
  {
    var words := WordsOf(text);
    WordsAreWords(text);
    FoldedAreWords(page, words, []);
    PrintedReadsBack(page.indent, Folded(page, words, []));
    if words != [] {
      FoldedIsFolding(page, words, []);
      assert [] + words == words;
    }
  }

  // ----------------------------------------------------------- the printed lines

  /** A line as it is printed. */
  function Shown(indent: string, lines: seq<Words>): seq<string> {
    seq(|lines|, i requires 0 <= i < |lines| => indent + Joined(lines[i]))
  }

  /** Every line, the last one too, is printed after the indent, and a line feed
      stands between two of them and nowhere else. */
  lemma {:induction false} PrintedExactly(indent: string, lines: seq<Words>)
    requires lines != []
    ensures var shown := Shown(indent, lines);
      Printed(indent, lines) == Ended(shown[..|lines| - 1], shown[|lines| - 1])
  {
    var shown := Shown(indent, lines);
    if |lines| > 1 {
      var more := lines[1..];
      PrintedExactly(indent, more);
      assert Shown(indent, more) == shown[1..];
      assert shown[..|lines| - 1][1..] == shown[1..][..|more| - 1];
    }
  }

  function Letters(line: Words): nat {
    if line == [] then 0 else Letters(line[..|line| - 1]) + |line[|line| - 1]|
  }

  /** A line is its words with one space between two of them: no other whitespace,
      and nothing else besides the words. */
  lemma {:induction false} JoinedExactly(line: Words)
    requires AreWords(line)
    ensures WordsOf(Joined(line)) == line
    ensures line != [] ==> |Joined(line)| == Letters(line) + |line| - 1
    ensures forall i :: 0 <= i < |Joined(line)| && IsWhitespace(Joined(line)[i]) ==> Joined(line)[i] == ' '
    decreases |line|
  {
    LineReadsBack(line, "");
    assert Joined(line) + "" == Joined(line) && WordsOf("") == [] && line + [] == line;
    if |line| == 1 {
      assert line[..0] == [];
    } else if line != [] {
      JoinedExactly(line[..|line| - 1]);
    }
  }
}
