/** The record of what this program last wrote into the discovery keys: printed
    one line per key, and read back dropping every line not understood. */
module Record {
  import opened Wrappers
  import opened Text

  datatype Entry = Entry(name: string, wrote: string)

  type Entries = seq<Entry>

  // ----------------------------------------------------------------- upsert

  /** `upsert`: the first entry of that name is replaced, or one is added. */
  function Upserted(record: Entries, name: string, wrote: string): Entries {
    if record == [] then [Entry(name, wrote)]
    else if record[0].name == name then [Entry(name, wrote)] + record[1..]
    else [record[0]] + Upserted(record[1..], name, wrote)
  }

  /** `recorded` */
  function Recorded(record: Entries, name: string): Option<string> {
    if record == [] then None
    else if record[0].name == name then Some(record[0].wrote)
    else Recorded(record[1..], name)
  }

  function UpsertAll(record: Entries, entries: Entries): Entries
    decreases |entries|
  {
    if entries == [] then record
    else UpsertAll(Upserted(record, entries[0].name, entries[0].wrote), entries[1..])
  }

  lemma {:induction false} UpsertedAt(record: Entries, i: nat, name: string, wrote: string)
    requires i <= |record| && forall j :: 0 <= j < i ==> record[j].name != name
    ensures i == |record| ==> Upserted(record, name, wrote) == record + [Entry(name, wrote)]
    ensures i < |record| && record[i].name == name ==>
      Upserted(record, name, wrote) == record[i := Entry(name, wrote)]
  {
    if i > 0 {
      UpsertedAt(record[1..], i - 1, name, wrote);
      assert record == [record[0]] + record[1..];
    }
  }

  /** The place of the first entry of that name, or after them all. */
  predicate FirstFor(record: Entries, name: string, i: nat) {
    && i <= |record| && (i < |record| ==> record[i].name == name)
    && forall j :: 0 <= j < i ==> record[j].name != name
  }

  method Upsert(record: Entries, name: string, wrote: string) returns (r: Entries)
    ensures r == Upserted(record, name, wrote)
    ensures forall i: nat :: FirstFor(record, name, i) ==>
      r == if i == |record| then record + [Entry(name, wrote)] else record[i := Entry(name, wrote)]
  {
    var i := 0;
    while i < |record| && record[i].name != name
      invariant 0 <= i <= |record|
      invariant forall j :: 0 <= j < i ==> record[j].name != name
    {
      i := i + 1;
    }
    UpsertedAt(record, i, name, wrote);
    if i == |record| {
      r := record + [Entry(name, wrote)];
    } else {
      r := record[i := Entry(name, wrote)];
    }
  }

  // ---------------------------------------------------------------- printing

  /** The comment above the entries. */
  const HEADER: seq<string> := [
    "# What `tobii bridge install` last " + "wrote into this prefix's FreeTrack",
    "# and TrackIR discovery keys. " + "`tobii bridge uninstall` removes those",
    "# values only while the keys " + "still say exactly this, and leaves",
    "# anything else exactly as it is. " + "Nothing here was read out of the",
    "# registry: every line is a path " + "this installer computed itself.",
    "# Lines are `<key> wrote <path>`."]

  function Unlines(lines: seq<string>): string {
    if lines == [] then "" else lines[0] + "\n" + Unlines(lines[1..])
  }

  function EntryLine(e: Entry): string {
    e.name + [' '] + ("wrote" + [' '] + e.wrote)
  }

  function EntryLines(entries: Entries): string {
    if entries == [] then "" else EntryLine(entries[0]) + "\n" + EntryLines(entries[1..])
  }

  /** `render_record` */
  function Rendered(entries: Entries): string {
    Unlines(HEADER) + EntryLines(entries)
  }

  method RenderRecord(entries: Entries) returns (out: string)
    ensures out == Rendered(entries)
  {
    out := Unlines(HEADER);
    assert entries[0..] == entries;
    for i := 0 to |entries|
      invariant Rendered(entries) == out + EntryLines(entries[i..])
    {
      assert entries[i..][1..] == entries[i + 1..];
      Regroup(out, EntryLine(entries[i]) + "\n", EntryLines(entries[i + 1..]));
      out := out + (EntryLine(entries[i]) + "\n");
    }
  }

  // ----------------------------------------------------------------- parsing

  /** `trim_end_matches('\r')` */
  function DropCrs(s: string): string {
    if s != "" && s[|s| - 1] == '\r' then DropCrs(DropLast(s)) else s
  }

  /** What one line says, if it says anything: `<name> wrote <the rest>`. */
  function ParsedLine(text: string): Option<Entry> {
    var line := DropCrs(text);
    if line != "" && line[0] == '#' then None
    else
      match SplitOnce(line, ' ')
      case None => None
      case Some((name, rest)) =>
        match SplitOnce(rest, ' ')
        case None => None
        case Some((verb, wrote)) =>
          if verb == "wrote" && name != "" && wrote != "" then Some(Entry(name, wrote)) else None
  }

  function ParsedLines(record: Entries, lines: seq<string>): Entries
    decreases |lines|
  {
    if lines == [] then record
    else
      match ParsedLine(lines[0])
      case None => ParsedLines(record, lines[1..])
      case Some(e) => ParsedLines(Upserted(record, e.name, e.wrote), lines[1..])
  }

  /** `parse_record` */
  function Parsed(text: string): Entries {
    ParsedLines([], Lines(text))
  }

  method ParseRecord(text: string) returns (out: Entries)
    ensures out == Parsed(text)
  {
    out := [];
    var lines := Lines(text);
    assert lines[0..] == lines;
    for i := 0 to |lines|
      invariant Parsed(text) == ParsedLines(out, lines[i..])
    {
      assert lines[i..][1..] == lines[i + 1..];
      match ParsedLine(lines[i]) {
        case None =>
        case Some(e) => out := Upsert(out, e.name, e.wrote);
      }
    }
  }

  // -------------------------------------------------------------- round trip

  /** What a line of the record can carry. */
  predicate Recordable(e: Entry) {
    && e.name != "" && ' ' !in e.name && '\n' !in e.name && e.name[0] != '#'
    && e.wrote != "" && '\n' !in e.wrote && e.wrote[|e.wrote| - 1] != '\r'
  }

  predicate AllRecordable(entries: Entries) {
    forall i :: 0 <= i < |entries| ==> Recordable(entries[i])
  }

  lemma EntryLineShape(e: Entry)
    requires Recordable(e)
    ensures '\n' !in EntryLine(e) && StripCr(EntryLine(e)) == EntryLine(e) == DropCrs(EntryLine(e))
    ensures EntryLine(e)[0] == e.name[0]
  {
    assert '\n' !in "wrote";
    assert EntryLine(e)[|EntryLine(e)| - 1] == e.wrote[|e.wrote| - 1];
  }

  lemma EntryLineParsed(e: Entry, verb: string)
    requires Recordable(e) && verb == "wrote" && ' ' !in verb
    ensures ParsedLine(EntryLine(e)) == Some(e)
  {
    EntryLineShape(e);
    SplitOnceConcat(e.name, ' ', verb + [' '] + e.wrote);
    SplitOnceConcat(verb, ' ', e.wrote);
  }

  lemma {:induction false} EntryLinesParsed(record: Entries, entries: Entries)
    requires AllRecordable(entries)
    ensures ParsedLines(record, Lines(EntryLines(entries))) == UpsertAll(record, entries)
    decreases |entries|
  {
    if entries != [] {
      var e := entries[0];
      EntryLineShape(e);
      EntryLineParsed(e, "wrote");
      LinesCons(EntryLine(e), EntryLines(entries[1..]));
      assert Lines(EntryLines(entries))[1..] == Lines(EntryLines(entries[1..]));
      EntryLinesParsed(Upserted(record, e.name, e.wrote), entries[1..]);
    }
  }

  predicate IsComment(line: string) {
    line != "" && line[0] == '#' && '\n' !in line && line[|line| - 1] != '\r'
  }

  predicate AllComments(lines: seq<string>) {
    forall i :: 0 <= i < |lines| ==> IsComment(lines[i])
  }

  lemma CommentSkipped(line: string, rest: string)
    requires IsComment(line)
    ensures ParsedLines([], Lines(line + "\n" + rest)) == ParsedLines([], Lines(rest))
  {
    LinesCons(line, rest);
    assert ParsedLine(line) == None;
    assert Lines(line + "\n" + rest)[1..] == Lines(rest);
  }

  lemma {:induction false} CommentsSkipped(comments: seq<string>, rest: string)
    requires AllComments(comments)
    ensures ParsedLines([], Lines(Unlines(comments) + rest)) == ParsedLines([], Lines(rest))
  {
    if comments == [] {
      assert Unlines(comments) + rest == rest;
    } else {
      var line, more := comments[0], Unlines(comments[1..]);
      Regroup(line + "\n", more, rest);
      CommentSkipped(line, more + rest);
      CommentsSkipped(comments[1..], rest);
    }
  }

  lemma TwoHalves(a: string, b: string)
    requires a != "" && a[0] == '#' && '\n' !in a
    requires b != "" && '\n' !in b && b[|b| - 1] != '\r'
    ensures IsComment(a + b)
  {
  }

  lemma HeaderStarts(header: seq<string>)
    requires header == HEADER
    ensures IsComment(header[0])
  {
    TwoHalves("# What `tobii bridge install` last ", "wrote into this prefix's FreeTrack");
  }

  lemma HeaderSecond(header: seq<string>)
    requires header == HEADER
    ensures IsComment(header[1])
  {
    TwoHalves("# and TrackIR discovery keys. ", "`tobii bridge uninstall` removes those");
  }

  lemma HeaderThird(header: seq<string>)
    requires header == HEADER
    ensures IsComment(header[2])
  {
    TwoHalves("# values only while the keys ", "still say exactly this, and leaves");
  }

  lemma HeaderFourth(header: seq<string>)
    requires header == HEADER
    ensures IsComment(header[3])
  {
    TwoHalves("# anything else exactly as it is. ", "Nothing here was read out of the");
  }

  lemma HeaderEnds(header: seq<string>)
    requires header == HEADER
    ensures IsComment(header[4]) && IsComment(header[5])
  {
    TwoHalves("# registry: every line is a path ", "this installer computed itself.");
  }

  lemma HeaderIsComments(header: seq<string>)
    requires header == HEADER
    ensures AllComments(header)
  {
    assert |header| == 6;
    HeaderStarts(header);
    HeaderSecond(header);
    HeaderThird(header);
    HeaderFourth(header);
    HeaderEnds(header);
  }

  /** A printed record is parsed as its entries upserted in turn: the last line
      for a name wins, and spaces in a value survive. */
  lemma RenderedParsesBack(entries: Entries)
    requires AllRecordable(entries)
    ensures Parsed(Rendered(entries)) == UpsertAll([], entries)
  {
    HeaderIsComments(HEADER);
    CommentsSkipped(HEADER, EntryLines(entries));
    EntryLinesParsed([], entries);
  }

  // --------------------------------------------------- what upserting means

  predicate DistinctNames(record: Entries) {
    forall i, j :: 0 <= i < j < |record| ==> record[i].name != record[j].name
  }

  lemma {:induction false} RecordedUpserted(record: Entries, name: string, wrote: string, other: string)
    ensures Recorded(Upserted(record, name, wrote), other)
         == if other == name then Some(wrote) else Recorded(record, other)
  {
    if record != [] && record[0].name != name {
      RecordedUpserted(record[1..], name, wrote, other);
    }
  }

  /** The value the last entry of that name gives. */
  function LastFor(entries: Entries, name: string, before: Option<string>): Option<string>
    decreases |entries|
  {
    if entries == [] then before
    else LastFor(entries[1..], name, if entries[0].name == name then Some(entries[0].wrote) else before)
  }

  lemma {:induction false} LastEntryWins(record: Entries, entries: Entries, name: string)
    ensures Recorded(UpsertAll(record, entries), name)
         == LastFor(entries, name, Recorded(record, name))
    decreases |entries|
  {
    if entries != [] {
      var e := entries[0];
      RecordedUpserted(record, e.name, e.wrote, name);
      LastEntryWins(Upserted(record, e.name, e.wrote), entries[1..], name);
    }
  }

  lemma {:induction false} UpsertedKeeps(record: Entries, name: string, wrote: string)
    requires DistinctNames(record)
    ensures DistinctNames(Upserted(record, name, wrote))
    ensures AllRecordable(record) && Recordable(Entry(name, wrote)) ==>
      AllRecordable(Upserted(record, name, wrote))
  {
    if i: nat :| i < |record| && record[i].name == name {
      UpsertedAt(record, i, name, wrote);
    } else {
      UpsertedAt(record, |record|, name, wrote);
    }
  }

  /** Upserting entries of new, distinct names only adds them. */
  lemma {:induction false} UpsertNew(record: Entries, entries: Entries)
    requires DistinctNames(record + entries)
    ensures UpsertAll(record, entries) == record + entries
    decreases |entries|
  {
    if entries == [] {
      assert record + entries == record;
    } else {
      var e := entries[0];
      var all := record + entries;
      forall j | 0 <= j < |record| ensures record[j].name != e.name {
        assert all[j] == record[j] && all[|record|] == e;
      }
      UpsertedAt(record, |record|, e.name, e.wrote);
      assert record + [e] + entries[1..] == record + entries;
      UpsertNew(record + [e], entries[1..]);
    }
  }

  /** A record with one line per key is written down and read back whole. */
  lemma RecordReadsBack(record: Entries)
    requires AllRecordable(record) && DistinctNames(record)
    ensures Parsed(Rendered(record)) == record
  {
    RenderedParsesBack(record);
    assert [] + record == record;
    UpsertNew([], record);
  }

  lemma {:induction false} UpsertedMembers(record: Entries, name: string, wrote: string, e: Entry)
    requires e in Upserted(record, name, wrote)
    ensures e in record || e == Entry(name, wrote)
  {
    if record != [] && record[0].name != name && e != record[0] {
      assert e in Upserted(record[1..], name, wrote);
      UpsertedMembers(record[1..], name, wrote, e);
    }
  }

  lemma {:induction false} LinesHaveNoLineFeed(s: string, i: nat)
    requires i < |Lines(s)|
    ensures '\n' !in Lines(s)[i]
    decreases |s|
  {
    IndexOfFirst(s, '\n');
    var n := IndexOf(s, '\n');
    if n == |s| {
      assert s[..n] == s;
    } else if i > 0 {
      LinesHaveNoLineFeed(s[n + 1..], i - 1);
    }
  }

  lemma {:induction false} DropCrsIsPrefix(s: string)
    ensures DropCrs(s) <= s
    ensures DropCrs(s) == "" || DropCrs(s)[|DropCrs(s)| - 1] != '\r'
  {
    if s != "" && s[|s| - 1] == '\r' {
      DropCrsIsPrefix(DropLast(s));
    }
  }

  lemma ParsedLineShape(line: string)
    requires ParsedLine(line).Some?
    ensures DropCrs(line) == EntryLine(ParsedLine(line).value)
    ensures ' ' !in ParsedLine(line).value.name
  {
    SplitOnceSplits(DropCrs(line), ' ');
    SplitOnceSplits(SplitOnce(DropCrs(line), ' ').value.1, ' ');
  }

  lemma ParsedLineIsRecordable(line: string)
    requires '\n' !in line
    ensures ParsedLine(line).Some? ==> Recordable(ParsedLine(line).value)
  {
    if ParsedLine(line).Some? {
      DropCrsIsPrefix(line);
      var kept, e := DropCrs(line), ParsedLine(line).value;
      ParsedLineShape(line);
      assert kept[|kept| - 1] == e.wrote[|e.wrote| - 1] && kept[0] == e.name[0];
      assert '\n' !in kept by {
        assert kept == line[..|kept|];
      }
      LineHoldsBoth(e);
    }
  }

  lemma LineHoldsBoth(e: Entry)
    ensures '\n' !in EntryLine(e) ==> '\n' !in e.name && '\n' !in e.wrote
  {
    var line, before := EntryLine(e), e.name + [' '] + "wrote" + [' '];
    assert line == before + e.wrote;
    assert forall i :: 0 <= i < |e.name| ==> line[i] == e.name[i];
    assert forall i :: 0 <= i < |e.wrote| ==> line[|before| + i] == e.wrote[i];
  }

  lemma {:induction false} ParsedLinesNormal(record: Entries, lines: seq<string>)
    requires DistinctNames(record) && AllRecordable(record)
    requires forall i :: 0 <= i < |lines| ==> '\n' !in lines[i]
    ensures DistinctNames(ParsedLines(record, lines)) && AllRecordable(ParsedLines(record, lines))
    decreases |lines|
  {
    if lines != [] {
      ParsedLineIsRecordable(lines[0]);
      match ParsedLine(lines[0]) {
        case None => ParsedLinesNormal(record, lines[1..]);
        case Some(e) =>
          UpsertedKeeps(record, e.name, e.wrote);
          ParsedLinesNormal(Upserted(record, e.name, e.wrote), lines[1..]);
      }
    }
  }

  /** Whatever the text, what is read out of it could have been written: it is
      recordable, with one entry per name, and so it survives being rewritten. */
  lemma ParsedIsNormal(text: string)
    ensures DistinctNames(Parsed(text)) && AllRecordable(Parsed(text))
    ensures Parsed(Rendered(Parsed(text))) == Parsed(text)
  {
    forall i | 0 <= i < |Lines(text)| ensures '\n' !in Lines(text)[i] {
      LinesHaveNoLineFeed(text, i);
    }
    ParsedLinesNormal([], Lines(text));
    RecordReadsBack(Parsed(text));
  }

  // ------------------------------------------------- what a text says, line by line

  predicate AllCrs(s: string) {
    forall i :: 0 <= i < |s| ==> s[i] == '\r'
  }

  /** A name, the word `wrote` and the rest, one space apart, before any number of
      carriage returns. */
  ghost predicate Says(line: string, e: Entry) {
    && e.name != "" && e.name[0] != '#' && ' ' !in e.name
    && e.wrote != "" && e.wrote[|e.wrote| - 1] != '\r'
    && exists crs :: AllCrs(crs) && line == e.name + " wrote " + e.wrote + crs
  }

  lemma {:induction false} DropCrsExactly(s: string, crs: string)
    requires AllCrs(crs) && (s == "" || s[|s| - 1] != '\r')
    ensures DropCrs(s + crs) == s
  {
    if crs == "" {
      assert s + crs == s;
    } else {
      assert DropLast(s + crs) == s + DropLast(crs);
      DropCrsExactly(s, DropLast(crs));
    }
  }

  lemma {:induction false} DropCrsSplit(s: string) returns (crs: string)
    ensures AllCrs(crs) && s == DropCrs(s) + crs
  {
    if s != "" && s[|s| - 1] == '\r' {
      var more := DropCrsSplit(DropLast(s));
      crs := more + "\r";
      assert s == DropLast(s) + "\r";
    } else {
      crs := "";
    }
  }

  lemma LineSplits(name: string, verb: string, wrote: string)
    requires verb == "wrote" && ' ' !in verb
    ensures name + " wrote " + wrote == name + [' '] + (verb + [' '] + wrote)
  {
    assert " wrote " == [' '] + verb + [' '];
  }

  lemma ParsedIsSaid(line: string, e: Entry)
    requires ParsedLine(line) == Some(e)
    ensures Says(line, e)
  {
    var kept, verb := DropCrs(line), "wrote";
    var crs := DropCrsSplit(line);
    DropCrsIsPrefix(line);
    ParsedLineShape(line);
    assert ' ' !in verb;
    LineSplits(e.name, verb, e.wrote);
    assert kept[|kept| - 1] == e.wrote[|e.wrote| - 1] && kept[0] == e.name[0];
    assert line == e.name + " wrote " + e.wrote + crs;
  }

  lemma TwoSplits(name: string, verb: string, wrote: string)
    requires ' ' !in name && ' ' !in verb
    ensures SplitOnce(name + [' '] + (verb + [' '] + wrote), ' ') == Some((name, verb + [' '] + wrote))
    ensures SplitOnce(verb + [' '] + wrote, ' ') == Some((verb, wrote))
  {
    SplitOnceConcat(name, ' ', verb + [' '] + wrote);
    SplitOnceConcat(verb, ' ', wrote);
  }

  lemma SaidIsParsed(line: string, e: Entry, crs: string, text: string)
    requires e.name != "" && e.name[0] != '#' && ' ' !in e.name
    requires e.wrote != "" && e.wrote[|e.wrote| - 1] != '\r'
    requires AllCrs(crs) && text == e.name + " wrote " + e.wrote && line == text + crs
    ensures ParsedLine(line) == Some(e)
  {
    var verb := "wrote";
    assert ' ' !in verb;
    LineSplits(e.name, verb, e.wrote);
    assert text[|text| - 1] == e.wrote[|e.wrote| - 1] && text[0] == e.name[0];
    DropCrsExactly(text, crs);
    TwoSplits(e.name, verb, e.wrote);
  }

  lemma ParsedLineExactly(line: string, e: Entry)
    ensures ParsedLine(line) == Some(e) <==> Says(line, e)
  {
    if ParsedLine(line) == Some(e) {
      ParsedIsSaid(line, e);
    }
    if Says(line, e) {
      var crs :| AllCrs(crs) && line == e.name + " wrote " + e.wrote + crs;
      SaidIsParsed(line, e, crs, e.name + " wrote " + e.wrote);
    }
  }

  /** What the line says of the name. */
  function About(line: string, name: string): Option<string> {
    match ParsedLine(line)
    case None => None
    case Some(e) => if e.name == name then Some(e.wrote) else None
  }

  lemma AboutExactly(line: string, name: string)
    ensures forall wrote :: About(line, name) == Some(wrote) <==> Says(line, Entry(name, wrote))
  {
    forall wrote ensures About(line, name) == Some(wrote) <==> Says(line, Entry(name, wrote)) {
      ParsedLineExactly(line, Entry(name, wrote));
    }
  }

  function LastAbout(lines: seq<string>, name: string, before: Option<string>): Option<string>
    decreases |lines|
  {
    if lines == [] then before
    else LastAbout(lines[1..], name,
                   if About(lines[0], name).Some? then About(lines[0], name) else before)
  }

  lemma {:induction false} ParsedLinesSay(record: Entries, lines: seq<string>, name: string)
    ensures Recorded(ParsedLines(record, lines), name) == LastAbout(lines, name, Recorded(record, name))
    decreases |lines|
  {
    if lines != [] {
      match ParsedLine(lines[0]) {
        case None =>
          ParsedLinesSay(record, lines[1..], name);
        case Some(e) =>
          RecordedUpserted(record, e.name, e.wrote, name);
          ParsedLinesSay(Upserted(record, e.name, e.wrote), lines[1..], name);
      }
    }
  }

  /** The last line that says something of the name, if one does. */
  lemma {:induction false} LastAboutAt(lines: seq<string>, name: string, before: Option<string>)
    returns (last: Option<nat>)
    ensures match last
      case None =>
        && LastAbout(lines, name, before) == before
        && forall i :: 0 <= i < |lines| ==> About(lines[i], name) == None
      case Some(n) =>
        && n < |lines| && About(lines[n], name).Some?
        && LastAbout(lines, name, before) == About(lines[n], name)
        && forall i :: n < i < |lines| ==> About(lines[i], name) == None
    decreases |lines|
  {
    if lines == [] {
      last := None;
    } else {
      var own := About(lines[0], name);
      last := LastAboutAt(lines[1..], name, if own.Some? then own else before);
      match last {
        case None => last := if own.Some? then Some(0) else None;
        case Some(n) => last := Some(n + 1);
      }
      assert forall i :: 0 < i < |lines| ==> lines[i] == lines[1..][i - 1];
    }
  }

  /** The last of the lines to say anything of the name says this. */
  ghost predicate LastSays(lines: seq<string>, name: string, wrote: string, n: nat) {
    && n < |lines| && Says(lines[n], Entry(name, wrote))
    && forall i, other :: n < i < |lines| ==> !Says(lines[i], Entry(name, other))
  }

  lemma {:induction false} SaidLast(lines: seq<string>, name: string, before: Option<string>,
                                    wrote: string, n: nat)
    requires LastSays(lines, name, wrote, n)
    ensures LastAbout(lines, name, before) == Some(wrote)
  {
    var last := LastAboutAt(lines, name, before);
    AboutExactly(lines[n], name);
    assert About(lines[n], name) == Some(wrote);
    forall i | n < i < |lines| ensures About(lines[i], name) == None {
      AboutExactly(lines[i], name);
    }
  }

  lemma SomeSaidLast(lines: seq<string>, name: string, wrote: string) returns (n: nat)
    requires LastAbout(lines, name, None) == Some(wrote)
    ensures LastSays(lines, name, wrote, n)
  {
    var last := LastAboutAt(lines, name, None);
    n := last.value;
    AboutExactly(lines[n], name);
    forall i, other | n < i < |lines| ensures !Says(lines[i], Entry(name, other)) {
      AboutExactly(lines[i], name);
    }
  }

  ghost predicate SaysAtLast(lines: seq<string>, name: string, wrote: string) {
    exists n: nat :: LastSays(lines, name, wrote, n)
  }

  /** What is read out of any text for a name is what its last line about it says,
      and nothing if there is none. */
  lemma ParsedSaysExactly(text: string, name: string, wrote: string)
    ensures Recorded(Parsed(text), name) == Some(wrote) <==> SaysAtLast(Lines(text), name, wrote)
  {
    var lines := Lines(text);
    ParsedLinesSay([], lines, name);
    if Recorded(Parsed(text), name) == Some(wrote) {
      var n := SomeSaidLast(lines, name, wrote);
    }
    if SaysAtLast(lines, name, wrote) {
      var n: nat :| LastSays(lines, name, wrote, n);
      SaidLast(lines, name, None, wrote, n);
    }
  }
}
