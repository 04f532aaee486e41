/** The autostart desktop entry: writing a program's path into `Exec`, and
    reading every argument back out of it. Each loop of the source is a method
    here, proved equal to the function that specifies it; what the functions
    mean is proved in `ExecGrammar` and `ExecRoundTrip`. */
module DesktopEntry {
  import opened Wrappers
  import opened Text

  const APP_ID := "com.tobiilinux.Configuration"

  // ---------------------------------------------------------------- writing

  /** What goes in front of a character of an argument, as it is written between
      double quotes in a desktop-entry value: both escaping layers at once. */
  function EscapePrefix(c: char): string {
    match c
    case '\\' => "\\\\\\"
    case '"' | '`' | '$' => "\\\\"
    case '%' => "%"
    case _ => ""
  }

  function EscapeChar(c: char): string {
    EscapePrefix(c) + [c]
  }

  function Escape(s: string): string {
    if s == "" then "" else EscapeChar(s[0]) + Escape(s[1..])
  }

  lemma {:induction false} EscapeAppend(s: string, c: char)
    ensures Escape(s + [c]) == Escape(s) + EscapeChar(c)
  {
    if s == "" {
      assert s + [c] == [c];
      assert Escape([c]) == EscapeChar(c) + Escape([c][1..]);
    } else {
      assert (s + [c])[1..] == s[1..] + [c];
      EscapeAppend(s[1..], c);
      assert EscapeChar(s[0]) + (Escape(s[1..]) + EscapeChar(c))
          == (EscapeChar(s[0]) + Escape(s[1..])) + EscapeChar(c);
    }
  }

  /** `quote_exec` */
  function Quoted(exec: string): string {
    "\"" + Escape(exec) + "\""
  }

  method QuoteExec(exec: string) returns (out: string)
    ensures out == Quoted(exec)
  {
    out := "\"";
    for i := 0 to |exec|
      invariant out == "\"" + Escape(exec[..i])
    {
      EscapeAppend(exec[..i], exec[i]);
      Regroup("\"", Escape(exec[..i]), EscapeChar(exec[i]));
      Regroup(out, EscapePrefix(exec[i]), [exec[i]]);
      assert exec[..i + 1] == exec[..i] + [exec[i]];
      out := out + EscapePrefix(exec[i]);
      out := out + [exec[i]];
    }
    assert exec[..|exec|] == exec;
    out := out + "\"";
  }

  const MAIN_HEADER := "[Desktop Entry]"

  /** The keys of the entry, around `Exec`. */
  const KEYS_BEFORE := [("Type", "Application"), ("Version", "1.5"),
                        ("Name", "Tobii Eye Tracker"),
                        ("Comment", "Keep the Tobii hub ready in the background")]

  const KEYS_AFTER := [("Icon", APP_ID), ("Terminal", "false"), ("NoDisplay", "true"),
                       ("X-GNOME-Autostart-enabled", "true")]

  function KeyLines(keys: seq<(string, string)>): string {
    if keys == [] then ""
    else keys[0].0 + ['='] + keys[0].1 + "\n" + KeyLines(keys[1..])
  }

  /** The one argument after the program. */
  const FLAG := "--background"

  /** `entry_text` */
  function EntryText(exec: string): string {
    MAIN_HEADER + "\n"
    + (KeyLines(KEYS_BEFORE) + ("Exec" + ['='] + (Quoted(exec) + (" " + FLAG)) + "\n"
    + KeyLines(KEYS_AFTER)))
  }

  // ---------------------------------------------------- the string escapes

  /** The character a desktop-entry string escape stands for (section 4 of the
      Desktop Entry Specification). */
  function EscapeMeaning(letter: char): Option<char> {
    match letter
    case 's' => Some(' ')
    case 'n' => Some('\n')
    case 't' => Some('\t')
    case 'r' => Some('\r')
    case '\\' => Some('\\')
    case _ => None
  }

  function PrependText(text: string, rest: Option<string>): Option<string> {
    match rest
    case None => None
    case Some(t) => Some(text + t)
  }

  lemma PrependTextTwice(a: string, b: string, rest: Option<string>)
    ensures PrependText(a, PrependText(b, rest)) == PrependText(a + b, rest)
    ensures PrependText("", rest) == rest
  {
    if rest.Some? {
      assert a + (b + rest.value) == (a + b) + rest.value;
      assert "" + rest.value == rest.value;
    }
  }

  /** `unescape_value` */
  function Unescaped(v: string): Option<string> {
    if v == "" then Some("")
    else if v[0] != '\\' then PrependText([v[0]], Unescaped(v[1..]))
    else if |v| == 1 then None
    else
      match EscapeMeaning(v[1])
      case None => None
      case Some(c) => PrependText([c], Unescaped(v[2..]))
  }

  method UnescapeValue(v: string) returns (r: Option<string>)
    ensures r == Unescaped(v)
  {
    var out := "";
    var i := 0;
    assert v[0..] == v;
    PrependTextTwice("", "", Unescaped(v));
    while i < |v|
      invariant i <= |v|
      invariant Unescaped(v) == PrependText(out, Unescaped(v[i..]))
    {
      var c := v[i];
      assert v[i..][1..] == v[i + 1..] && (i + 2 <= |v| ==> v[i..][2..] == v[i + 2..]);
      i := i + 1;
      if c == '\\' {
        if i == |v| {
          return None;
        }
        var letter := v[i];
        i := i + 1;
        match EscapeMeaning(letter) {
          case None => return None;
          case Some(e) =>
            PrependTextTwice(out, [e], Unescaped(v[i..]));
            out := out + [e];
        }
      } else {
        PrependTextTwice(out, [c], Unescaped(v[i..]));
        out := out + [c];
      }
    }
    assert v[i..] == "" && out + "" == out;
    return Some(out);
  }

  // -------------------------------------------------------- the tokenizer

  /** Reserved outside double quotes (section 7, "The Exec key"). */
  predicate Reserved(c: char) {
    || c == '\'' || c == '\\' || c == '>' || c == '<' || c == '~' || c == '|' || c == '&'
    || c == ';' || c == '$' || c == '*' || c == '?' || c == '#' || c == '`'
  }

  /** What a backslash may escape inside double quotes. */
  predicate Escapable(c: char) {
    c == '"' || c == '`' || c == '$' || c == '\\'
  }

  /** What ends an unquoted argument: not every whitespace character does. */
  predicate Separator(c: char) {
    c == ' ' || c == '\t' || c == '\n' || c == '\r'
  }

  /** `str::replace("%%", "%")` */
  function Undoubled(s: string): string {
    if |s| >= 2 && s[0] == '%' && s[1] == '%' then "%" + Undoubled(s[2..])
    else if s == "" then ""
    else [s[0]] + Undoubled(s[1..])
  }

  /** An argument's text before `%%` is undone, and what follows it. */
  datatype Argument = Argument(text: string, rest: string)

  function PrependArgument(text: string, a: Option<Argument>): Option<Argument> {
    match a
    case None => None
    case Some(Argument(t, rest)) => Some(Argument(text + t, rest))
  }

  /** One argument read from the front of `s`, starting inside or outside
      double quotes. */
  function ReadArgument(s: string, quoted: bool): (r: Option<Argument>)
    ensures r.Some? ==> |r.value.rest| <= |s| && (s != "" ==> |r.value.rest| < |s|)
    decreases |s|
  {
    if s == "" then (if quoted then None else Some(Argument("", "")))
    else
      var c := s[0];
      if c == '"' then ReadArgument(s[1..], !quoted)
      else if c == '\\' && quoted then
        if |s| >= 2 && Escapable(s[1])
        then PrependArgument([s[1]], ReadArgument(s[2..], true))
        else None
      else if (c == '`' || c == '$') && quoted then None
      else if !quoted && Reserved(c) then None
      else if !quoted && Separator(c) then Some(Argument("", s[1..]))
      else PrependArgument([c], ReadArgument(s[1..], quoted))
  }

  function PrependArgs(args: seq<string>, rest: Option<seq<string>>): Option<seq<string>> {
    match rest
    case None => None
    case Some(more) => Some(args + more)
  }

  /** Every argument of `v`, an empty list included. */
  function ReadArguments(v: string): Option<seq<string>>
    decreases |v|
  {
    var s := TrimStart(v);
    if s == "" then Some([])
    else
      match ReadArgument(s, false)
      case None => None
      case Some(Argument(text, rest)) => PrependArgs([Undoubled(text)], ReadArguments(rest))
  }

  /** An empty first argument names no program. */
  function NamingAProgram(args: seq<string>): Option<seq<string>> {
    if args != [] && args[0] != "" then Some(args) else None
  }

  /** `split_arguments` */
  function Arguments(v: string): Option<seq<string>> {
    match ReadArguments(v)
    case None => None
    case Some(args) => NamingAProgram(args)
  }

  lemma PrependArgumentTwice(a: string, b: string, rest: Option<Argument>)
    ensures PrependArgument(a, PrependArgument(b, rest)) == PrependArgument(a + b, rest)
    ensures PrependArgument("", rest) == rest
  {
    if rest.Some? {
      assert a + (b + rest.value.text) == (a + b) + rest.value.text;
      assert "" + rest.value.text == rest.value.text;
    }
  }

  lemma PrependArgsTwice(a: seq<string>, b: seq<string>, rest: Option<seq<string>>)
    ensures PrependArgs(a, PrependArgs(b, rest)) == PrependArgs(a + b, rest)
    ensures PrependArgs([], rest) == rest
  {
    if rest.Some? {
      assert a + (b + rest.value) == (a + b) + rest.value;
      assert [] + rest.value == rest.value;
    }
  }

  /** The inner loop of `split_arguments`: the argument that starts at `start`,
      and where the reading goes on after it. */
  method NextArgument(v: string, start: nat) returns (r: Option<(string, nat)>)
    requires start < |v|
    ensures r.None? ==> ReadArgument(v[start..], false).None?
    ensures r.Some? ==> start < r.value.1 <= |v|
    ensures r.Some? ==>
      ReadArgument(v[start..], false) == Some(Argument(r.value.0, v[r.value.1..]))
  {
    var arg := "";
    var quoted := false;
    var i := start;
    PrependArgumentTwice("", "", ReadArgument(v[start..], false));
    while i < |v|
      invariant start <= i <= |v|
      invariant ReadArgument(v[start..], false)
        == PrependArgument(arg, ReadArgument(v[i..], quoted))
    {
      var c := v[i];
      assert v[i..][1..] == v[i + 1..] && (i + 2 <= |v| ==> v[i..][2..] == v[i + 2..]);
      i := i + 1;
      if c == '"' {
        quoted := !quoted;
      } else if c == '\\' && quoted {
        if i == |v| || !Escapable(v[i]) {
          return None;
        }
        PrependArgumentTwice(arg, [v[i]], ReadArgument(v[i + 1..], quoted));
        arg := arg + [v[i]];
        i := i + 1;
      } else if (c == '`' || c == '$') && quoted {
        return None;
      } else if !quoted && Reserved(c) {
        return None;
      } else if !quoted && Separator(c) {
        assert arg + "" == arg;
        return Some((arg, i));
      } else {
        PrependArgumentTwice(arg, [c], ReadArgument(v[i..], quoted));
        arg := arg + [c];
      }
    }
    if quoted {
      return None;
    }
    assert arg + "" == arg && v[i..] == "";
    return Some((arg, i));
  }

  /** The `next_if` loop that runs before every argument. */
  method SkipWhitespace(v: string, start: nat) returns (i: nat)
    requires start <= |v|
    ensures start <= i <= |v| && v[i..] == TrimStart(v[start..])
  {
    i := start;
    while i < |v| && IsWhitespace(v[i])
      invariant start <= i <= |v|
      invariant TrimStart(v[start..]) == TrimStart(v[i..])
    {
      assert v[i..][1..] == v[i + 1..];
      i := i + 1;
    }
  }

  method SplitArguments(v: string) returns (r: Option<seq<string>>)
    ensures r == Arguments(v)
  {
    var args: seq<string> := [];
    var i := 0;
    assert v[0..] == v;
    PrependArgsTwice([], [], ReadArguments(v));
    while true
      invariant i <= |v|
      invariant ReadArguments(v) == PrependArgs(args, ReadArguments(v[i..]))
      decreases |v| - i
    {
      ghost var from := v[i..];
      i := SkipWhitespace(v, i);
      if i == |v| {
        assert v[i..] == "" && ReadArguments(from) == Some([]) && args + [] == args;
        assert ReadArguments(v) == Some(args);
        break;
      }
      var next := NextArgument(v, i);
      if next.None? {
        assert ReadArguments(from) == None;
        return None;
      }
      var arg := Undoubled(next.value.0);
      PrependArgsTwice(args, [arg], ReadArguments(v[next.value.1..]));
      assert ReadArguments(from) == PrependArgs([arg], ReadArguments(v[next.value.1..]));
      args := args + [arg];
      i := next.value.1;
    }
    r := NamingAProgram(args);
  }

  // --------------------------------------------- finding the `Exec` line

  predicate IsHeader(line: string) {
    var trimmed := Trim(line);
    trimmed != "" && trimmed[0] == '['
  }

  /** The value `line` gives the key `Exec`, when it is such a line. */
  function ExecValue(line: string): Option<string> {
    match SplitOnce(Trim(line), '=')
    case None => None
    case Some((key, value)) => if Trim(key) == "Exec" then Some(Trim(value)) else None
  }

  /** What a line is to the scanner. */
  datatype LineKind = Header(main: bool) | Exec(value: string) | Neither

  function Kind(line: string): LineKind {
    if IsHeader(line) then Header(Trim(line) == MAIN_HEADER)
    else
      match ExecValue(line)
      case None => Neither
      case Some(v) => Exec(v)
  }

  function Kinds(lines: seq<string>): (kinds: seq<LineKind>)
    ensures |kinds| == |lines|
  {
    if lines == [] then [] else [Kind(lines[0])] + Kinds(lines[1..])
  }

  /** The value of every `Exec` line that stands in a `[Desktop Entry]` group,
      where `inMain` says which group the first line belongs to. */
  function ExecValues(kinds: seq<LineKind>, inMain: bool): seq<string> {
    if kinds == [] then []
    else
      match kinds[0]
      case Header(main) => ExecValues(kinds[1..], main)
      case Exec(v) => (if inMain then [v] else []) + ExecValues(kinds[1..], inMain)
      case Neither => ExecValues(kinds[1..], inMain)
  }

  /** The arguments a value spells, through both layers. */
  function ReadValue(value: string): Option<seq<string>> {
    match Unescaped(value)
    case None => None
    case Some(v) => Arguments(v)
  }

  /** Launchers disagree about which of two `Exec` lines runs: neither is read. */
  function ReadOnlyValue(values: seq<string>): Option<seq<string>> {
    if |values| == 1 then ReadValue(values[0]) else None
  }

  /** `exec_arguments` */
  function ExecArguments(entry: string): Option<seq<string>> {
    ReadOnlyValue(ExecValues(Kinds(Lines(entry)), false))
  }

  /** The loop of `exec_arguments`: the one value it may read, or none. */
  method FindExec(kinds: seq<LineKind>) returns (exec: Option<string>)
    ensures exec.Some? ==> ExecValues(kinds, false) == [exec.value]
    ensures exec.None? ==> |ExecValues(kinds, false)| != 1
  {
    var inMain := false;
    exec := None;
    assert kinds[0..] == kinds;
    for i := 0 to |kinds|
      invariant ExecValues(kinds, false)
        == (if exec.Some? then [exec.value] else []) + ExecValues(kinds[i..], inMain)
    {
      assert kinds[i..][0] == kinds[i] && kinds[i..][1..] == kinds[i + 1..];
      match kinds[i] {
        case Header(main) => inMain := main;
        case Neither =>
        case Exec(value) =>
          if inMain {
            if exec.Some? {
              assert |ExecValues(kinds, false)| >= 2;
              return None;
            }
            exec := Some(value);
          }
      }
    }
  }

  method ReadExecArguments(entry: string) returns (r: Option<seq<string>>)
    ensures r == ExecArguments(entry)
  {
    var exec := FindExec(Kinds(Lines(entry)));
    if exec.None? {
      return None;
    }
    var v := UnescapeValue(exec.value);
    if v.None? {
      return None;
    }
    r := SplitArguments(v.value);
  }
}
