/** The gate every `tobii bridge` command line goes through, and the reader that
    looks its flags up afterwards. The gate parses from left to right; the
    reader takes the first token that is spelled like the flag. */
module Flags {
  import opened Wrappers

  type Tokens = seq<string>

  // ----------------------------------------------------------------- the gate

  datatype Gate =
    | Accepted
    | Positional(token: string)
    | NotASpelling(token: string)
    | UnknownOption(token: string)
    | NeedsValue(token: string)

  predicate TakesValue(name: string) {
    name != "force"
  }

  /** `trim_start_matches('-')` */
  function DropDashes(s: string): string {
    if s != "" && s[0] == '-' then DropDashes(s[1..]) else s
  }

  /** Dashes, any number of them, and the name, which does not start with one. */
  predicate NameOf(s: string, name: string) {
    && |name| <= |s| && s[|s| - |name|..] == name && (name != "" ==> name[0] != '-')
    && forall i :: 0 <= i < |s| - |name| ==> s[i] == '-'
  }

  lemma {:induction false} NameExactly(s: string, name: string)
    ensures DropDashes(s) == name <==> NameOf(s, name)
  {
    if s != "" && s[0] == '-' {
      NameExactly(s[1..], name);
      if NameOf(s[1..], name) {
        assert s[|s| - |name|..] == s[1..][|s| - 1 - |name|..];
        assert forall i :: 0 < i < |s| - |name| ==> s[i] == s[1..][i - 1];
      }
      if NameOf(s, name) {
        assert s[0..] == s;
        assert s[|s| - |name|..] == s[1..][|s| - 1 - |name|..];
        assert forall i :: 0 <= i < |s| - 1 - |name| ==> s[1..][i] == s[i + 1];
      }
    } else {
      assert s[0..] == s;
    }
  }

  predicate StandsAlone(token: string) {
    token == "-" || token == "" || token[0] != '-'
  }

  /** What the gate says of one token that should be a flag. */
  function Checked(token: string, known: seq<string>): Gate {
    if StandsAlone(token) then Positional(token)
    else if '=' in token then NotASpelling(token)
    else if DropDashes(token) !in known then UnknownOption(token)
    else Accepted
  }

  function Gated(tokens: Tokens, known: seq<string>): Gate {
    if tokens == [] then Accepted
    else if Checked(tokens[0], known) != Accepted then Checked(tokens[0], known)
    else if !TakesValue(DropDashes(tokens[0])) then Gated(tokens[1..], known)
    else if |tokens| == 1 then NeedsValue(tokens[0])
    else Gated(tokens[2..], known)
  }

  /** The program's name, `bridge` and the subcommand come before the flags. */
  function AfterSub(args: Tokens): Tokens {
    if |args| <= 3 then [] else args[3..]
  }

  /** `reject_unknown_flags`; `next` is where the iterator stands. */
  method RejectUnknownFlags(args: Tokens, known: seq<string>) returns (gate: Gate)
    ensures gate == Gated(AfterSub(args), known)
  {
    var next := if |args| <= 3 then |args| else 3;
    assert args[|args|..] == [];
    while next < |args|
      invariant next <= |args|
      invariant Gated(AfterSub(args), known) == Gated(args[next..], known)
    {
      var a := args[next];
      next := next + 1;
      if a == "-" || a == "" || a[0] != '-' {
        return Positional(a);
      }
      if '=' in a {
        return NotASpelling(a);
      }
      var name := DropDashes(a);
      if name !in known {
        return UnknownOption(a);
      }
      if TakesValue(name) {
        if next == |args| {
          return NeedsValue(a);
        }
        next := next + 1;
      }
    }
    return Accepted;
  }

  // -------------------------------------------------- what an accepted line is

  /** A flag as it was spelled, with its value if it takes one. */
  datatype Flag = Flag(spelled: string, value: Option<string>) {
    function Name(): string {
      DropDashes(spelled)
    }
  }

  function SpellOne(flag: Flag): Tokens {
    match flag.value
    case None => [flag.spelled]
    case Some(value) => [flag.spelled, value]
  }

  function Spell(flags: seq<Flag>): Tokens {
    if flags == [] then [] else SpellOne(flags[0]) + Spell(flags[1..])
  }

  /** The token starts with a dash, is not a bare one and holds no `=`, and what
      follows its dashes is known; it has a value just when that is not `force`. */
  predicate WellFormed(flag: Flag, known: seq<string>) {
    && flag.spelled != "" && flag.spelled[0] == '-' && flag.spelled != "-"
    && '=' !in flag.spelled && flag.Name() in known
    && (flag.value.Some? <==> flag.Name() != "force")
  }

  predicate AllWellFormed(flags: seq<Flag>, known: seq<string>) {
    forall i :: 0 <= i < |flags| ==> WellFormed(flags[i], known)
  }

  /** The flags of a line, left to right. */
  function Parse(tokens: Tokens): seq<Flag> {
    if tokens == [] then []
    else if !TakesValue(DropDashes(tokens[0])) || |tokens| == 1 then
      [Flag(tokens[0], None)] + Parse(tokens[1..])
    else [Flag(tokens[0], Some(tokens[1]))] + Parse(tokens[2..])
  }

  lemma ParsedWithValue(tokens: Tokens, known: seq<string>)
    requires |tokens| >= 2 && TakesValue(DropDashes(tokens[0]))
    requires Checked(tokens[0], known) == Accepted
    requires AllWellFormed(Parse(tokens[2..]), known) && Spell(Parse(tokens[2..])) == tokens[2..]
    ensures AllWellFormed(Parse(tokens), known) && Spell(Parse(tokens)) == tokens
  {
    var flags := Parse(tokens);
    assert flags[1..] == Parse(tokens[2..]);
    assert tokens == [tokens[0], tokens[1]] + tokens[2..];
  }

  lemma ParsedAlone(tokens: Tokens, known: seq<string>)
    requires tokens != [] && !TakesValue(DropDashes(tokens[0]))
    requires Checked(tokens[0], known) == Accepted
    requires AllWellFormed(Parse(tokens[1..]), known) && Spell(Parse(tokens[1..])) == tokens[1..]
    ensures AllWellFormed(Parse(tokens), known) && Spell(Parse(tokens)) == tokens
  {
    var flags := Parse(tokens);
    assert flags[1..] == Parse(tokens[1..]);
    assert tokens == [tokens[0]] + tokens[1..];
  }

  lemma {:induction false} AcceptedIsSpelled(tokens: Tokens, known: seq<string>)
    requires Gated(tokens, known) == Accepted
    ensures AllWellFormed(Parse(tokens), known) && Spell(Parse(tokens)) == tokens
  {
    if tokens != [] {
      if TakesValue(DropDashes(tokens[0])) {
        AcceptedIsSpelled(tokens[2..], known);
        ParsedWithValue(tokens, known);
      } else {
        AcceptedIsSpelled(tokens[1..], known);
        ParsedAlone(tokens, known);
      }
    }
  }

  lemma {:induction false} SpelledIsAccepted(flags: seq<Flag>, known: seq<string>)
    requires AllWellFormed(flags, known)
    ensures Gated(Spell(flags), known) == Accepted && Parse(Spell(flags)) == flags
  {
    if flags != [] {
      var flag, rest := flags[0], Spell(flags[1..]);
      SpelledIsAccepted(flags[1..], known);
      assert WellFormed(flag, known);
      if flag.value.Some? {
        assert Spell(flags)[2..] == rest && Spell(flags)[0] == flag.spelled;
        assert Spell(flags)[1] == flag.value.value;
      } else {
        assert Spell(flags)[1..] == rest && Spell(flags)[0] == flag.spelled;
      }
    }
  }

  /** What the gate lets through is exactly the lines that are known flags, each
      with a value just when it takes one, and nothing else; and such a line is
      so in one way only. */
  lemma {:induction false} AcceptedExactly(tokens: Tokens, known: seq<string>, flags: seq<Flag>)
    ensures AllWellFormed(flags, known) && Spell(flags) == tokens
       <==> Gated(tokens, known) == Accepted && flags == Parse(tokens)
  {
    if AllWellFormed(flags, known) && Spell(flags) == tokens {
      SpelledIsAccepted(flags, known);
    }
    if Gated(tokens, known) == Accepted {
      AcceptedIsSpelled(tokens, known);
    }
  }

  // --------------------------------------------------- why a line is not one

  /** Why the token cannot be the next flag of the line; `last` if nothing
      follows it. */
  ghost predicate Offends(token: string, last: bool, known: seq<string>, gate: Gate) {
    var dashed := token != "" && token[0] == '-' && token != "-";
    match gate
    case Accepted => false
    case Positional(t) => t == token && !dashed
    case NotASpelling(t) => t == token && dashed && '=' in token
    case UnknownOption(t) =>
      t == token && dashed && '=' !in token && forall name :: NameOf(token, name) ==> name !in known
    case NeedsValue(t) =>
      && t == token && dashed && '=' !in token && last
      && exists name :: NameOf(token, name) && name in known && name != "force"
  }

  lemma OffendsExactly(token: string, last: bool, known: seq<string>, gate: Gate)
    ensures Offends(token, last, known, gate)
       <==> && gate != Accepted
            && gate == (if Checked(token, known) != Accepted then Checked(token, known)
                        else if TakesValue(DropDashes(token)) && last then NeedsValue(token)
                        else Accepted)
  {
    var own := DropDashes(token);
    NameExactly(token, own);
    forall name | NameOf(token, name) ensures name == own {
      NameExactly(token, name);
    }
  }

  lemma {:induction false} GatedSkips(flags: seq<Flag>, more: Tokens, known: seq<string>)
    requires AllWellFormed(flags, known)
    ensures Gated(Spell(flags) + more, known) == Gated(more, known)
  {
    if flags == [] {
      assert Spell(flags) + more == more;
    } else {
      GatedSkips(flags[1..], more, known);
      var flag, rest := flags[0], Spell(flags[1..]) + more;
      assert WellFormed(flag, known);
      assert Spell(flags) + more == SpellOne(flag) + rest;
      if flag.value.Some? {
        assert (SpellOne(flag) + rest)[2..] == rest;
      } else {
        assert (SpellOne(flag) + rest)[1..] == rest;
      }
    }
  }

  lemma GatedStops(token: string, rest: Tokens, known: seq<string>, gate: Gate)
    requires Offends(token, rest == [], known, gate)
    ensures Gated([token] + rest, known) == gate
  {
    OffendsExactly(token, rest == [], known, gate);
  }

  /** The flag a line starts with. */
  function FirstFlag(tokens: Tokens): Flag
    requires tokens != []
  {
    if TakesValue(DropDashes(tokens[0])) && |tokens| > 1 then Flag(tokens[0], Some(tokens[1]))
    else Flag(tokens[0], None)
  }

  lemma FirstOffends(tokens: Tokens, known: seq<string>)
    requires Gated(tokens, known) != Accepted
    ensures var flag, n := FirstFlag(tokens), |SpellOne(FirstFlag(tokens))|;
      Offends(tokens[0], |tokens| == 1, known, Gated(tokens, known))
      || (WellFormed(flag, known) && n <= |tokens| && tokens[..n] == SpellOne(flag)
          && Gated(tokens[n..], known) == Gated(tokens, known))
  {
    OffendsExactly(tokens[0], |tokens| == 1, known, Gated(tokens, known));
  }

  lemma SpelledBefore(flag: Flag, more: seq<Flag>, token: string, rest: Tokens, tokens: Tokens)
    requires |SpellOne(flag)| <= |tokens| && tokens[..|SpellOne(flag)|] == SpellOne(flag)
    requires tokens[|SpellOne(flag)|..] == Spell(more) + [token] + rest
    ensures tokens == Spell([flag] + more) + [token] + rest
  {
    assert ([flag] + more)[1..] == more;
    assert tokens == tokens[..|SpellOne(flag)|] + tokens[|SpellOne(flag)|..];
  }

  /** The flags before the token the gate stops at. */
  lemma {:induction false} StopsAfter(tokens: Tokens, known: seq<string>)
    returns (flags: seq<Flag>, token: string, rest: Tokens)
    requires Gated(tokens, known) != Accepted
    ensures AllWellFormed(flags, known) && tokens == Spell(flags) + [token] + rest
    ensures Offends(token, rest == [], known, Gated(tokens, known))
  {
    var gate := Gated(tokens, known);
    FirstOffends(tokens, known);
    if Offends(tokens[0], |tokens| == 1, known, gate) {
      flags, token, rest := [], tokens[0], tokens[1..];
      assert tokens == [tokens[0]] + tokens[1..];
      assert Spell([]) + [token] + rest == [token] + rest;
    } else {
      var flag := FirstFlag(tokens);
      var more;
      more, token, rest := StopsAfter(tokens[|SpellOne(flag)|..], known);
      flags := [flag] + more;
      SpelledBefore(flag, more, token, rest, tokens);
    }
  }

  /** Known flags, each with a value just when it takes one, and then a token
      that cannot be the next. */
  ghost predicate StopsAt(tokens: Tokens, known: seq<string>, gate: Gate,
                          flags: seq<Flag>, token: string, rest: Tokens)
  {
    && AllWellFormed(flags, known) && tokens == Spell(flags) + [token] + rest
    && Offends(token, rest == [], known, gate)
  }

  /** The gate refuses a line exactly when it is known flags up to a token that
      cannot be the next one, and for the reason that token gives. */
  lemma GateRefusesExactly(tokens: Tokens, known: seq<string>, gate: Gate)
    requires gate != Accepted
    ensures Gated(tokens, known) == gate
       <==> exists flags, token, rest :: StopsAt(tokens, known, gate, flags, token, rest)
  {
    if Gated(tokens, known) == gate {
      var flags, token, rest := StopsAfter(tokens, known);
      assert StopsAt(tokens, known, gate, flags, token, rest);
    }
    if flags, token, rest :| StopsAt(tokens, known, gate, flags, token, rest) {
      assert tokens == Spell(flags) + ([token] + rest);
      GatedSkips(flags, [token] + rest, known);
      GatedStops(token, rest, known, gate);
    }
  }

  // --------------------------------------------------------------- the reader

  function Position(args: Tokens, token: string): (i: nat)
    ensures i <= |args|
  {
    if args == [] || args[0] == token then 0 else Position(args[1..], token) + 1
  }

  /** `flag_value` */
  function FlagValue(args: Tokens, token: string): Option<string> {
    var i := Position(args, token);
    if i + 1 < |args| then Some(args[i + 1]) else None
  }

  /** What a left-to-right parse assigns first. */
  function FirstAssigned(flags: seq<Flag>, name: string): Option<string> {
    if flags == [] then None
    else if flags[0].Name() == name then flags[0].value
    else FirstAssigned(flags[1..], name)
  }

  /** Which flag is the first of that name; none is the number of them all. */
  function FirstNamed(flags: seq<Flag>, name: string): (j: nat)
    ensures j <= |flags|
  {
    if flags == [] || flags[0].Name() == name then 0 else FirstNamed(flags[1..], name) + 1
  }

  /** Where on the line it stands; none is the end of the line. */
  function FlagAt(flags: seq<Flag>, name: string): (i: nat)
    ensures i <= |Spell(flags)|
  {
    if flags == [] || flags[0].Name() == name then 0
    else |SpellOne(flags[0])| + FlagAt(flags[1..], name)
  }

  /** The first flag of that name is spelled so, and no value before it is. */
  predicate PlainFirst(flags: seq<Flag>, name: string, token: string) {
    var j := FirstNamed(flags, name);
    && (j < |flags| ==> flags[j].spelled == token)
    && forall i :: 0 <= i < j ==> flags[i].value != Some(token)
  }

  lemma FlagValueSkips(a: string, rest: Tokens, token: string)
    requires a != token
    ensures FlagValue([a] + rest, token) == FlagValue(rest, token)
  {
    assert ([a] + rest)[1..] == rest;
  }

  lemma {:induction false} FlagValueSkipsAll(head: Tokens, rest: Tokens, token: string)
    requires token !in head
    ensures FlagValue(head + rest, token) == FlagValue(rest, token)
  {
    if head == [] {
      assert head + rest == rest;
    } else {
      assert head + rest == [head[0]] + (head[1..] + rest);
      FlagValueSkips(head[0], head[1..] + rest, token);
      FlagValueSkipsAll(head[1..], rest, token);
    }
  }

  /** A flag's own spelling. */
  function Dashed(name: string): string {
    ['-', '-'] + name
  }

  predicate Undashed(name: string) {
    name != "" && name[0] != '-'
  }

  lemma DashedNames(name: string)
    requires Undashed(name)
    ensures DropDashes(Dashed(name)) == name && !StandsAlone(Dashed(name))
  {
    var one := ['-'] + name;
    assert Dashed(name)[1..] == one && one[1..] == name;
    assert DropDashes(one) == name;
  }

  lemma {:induction false} PositionSkips(head: Tokens, rest: Tokens, token: string)
    ensures token !in head ==> Position(head + rest, token) == |head| + Position(rest, token)
    ensures token in head ==> Position(head + rest, token) < |head|
  {
    if head == [] {
      assert head + rest == rest;
    } else {
      assert (head + rest)[1..] == head[1..] + rest;
      PositionSkips(head[1..], rest, token);
      assert token in head <==> head[0] == token || token in head[1..];
    }
  }

  lemma PlainFirstUnfolds(flags: seq<Flag>, name: string, token: string)
    requires flags != [] && flags[0].Name() != name
    ensures PlainFirst(flags, name, token)
       <==> flags[0].value != Some(token) && PlainFirst(flags[1..], name, token)
  {
    var j := FirstNamed(flags[1..], name);
    assert forall i :: 0 < i <= j ==> flags[i].value == flags[1..][i - 1].value;
    assert j < |flags[1..]| ==> flags[1..][j] == flags[j + 1];
    if flags[0].value != Some(token) && PlainFirst(flags[1..], name, token) {
      forall i | 0 <= i < j + 1 ensures flags[i].value != Some(token) {
        assert i > 0 ==> flags[1..][i - 1].value != Some(token);
      }
    }
    if PlainFirst(flags, name, token) {
      forall i | 0 <= i < j ensures flags[1..][i].value != Some(token) {
        assert flags[1..][i] == flags[i + 1];
      }
    }
  }

  /** The reader comes to the very token at which a parse finds the first flag of
      that name if and only if that flag is spelled so and no value before it. */
  lemma {:induction false} ReaderExactly(flags: seq<Flag>, name: string, token: string)
    requires DropDashes(token) == name
    ensures Position(Spell(flags), token) == FlagAt(flags, name) <==> PlainFirst(flags, name, token)
  {
    if flags != [] {
      var flag, rest := flags[0], Spell(flags[1..]);
      if flag.Name() == name {
        assert Spell(flags)[0] == flag.spelled;
      } else {
        ReaderExactly(flags[1..], name, token);
        PlainFirstUnfolds(flags, name, token);
        PositionSkips(SpellOne(flag), rest, token);
        assert token in SpellOne(flag) <==> flag.value == Some(token);
      }
    }
  }

  /** On a line the gate accepts, the reader comes to the token a left-to-right
      parse comes to first, or to the end of the line where that finds none, if
      and only if the three words before the flags are spelled otherwise, the
      first flag of that name has two dashes, and no value before it is spelled
      like the flag. */
  lemma ReaderFindsExactly(args: Tokens, known: seq<string>, name: string)
    requires Gated(AfterSub(args), known) == Accepted && Undashed(name) && |args| >= 3
    ensures Position(args, Dashed(name)) == 3 + FlagAt(Parse(AfterSub(args)), name)
       <==> Dashed(name) !in args[..3] && PlainFirst(Parse(AfterSub(args)), name, Dashed(name))
  {
    var tokens := AfterSub(args);
    DashedNames(name);
    AcceptedIsSpelled(tokens, known);
    assert args == args[..3] + tokens;
    PositionSkips(args[..3], tokens, Dashed(name));
    ReaderExactly(Parse(tokens), name, Dashed(name));
  }

  /** What stands there, and what follows it. */
  lemma {:induction false} ValueAfterFlag(flags: seq<Flag>, known: seq<string>, name: string)
    requires AllWellFormed(flags, known) && TakesValue(name)
    ensures var i := FlagAt(flags, name);
      FirstAssigned(flags, name)
      == if i + 1 < |Spell(flags)| then Some(Spell(flags)[i + 1]) else None
  {
    if flags != [] {
      var flag, rest := flags[0], Spell(flags[1..]);
      assert WellFormed(flag, known);
      if flag.Name() == name {
        assert Spell(flags)[1] == flag.value.value;
      } else {
        var more := flags[1..];
        assert forall i :: 0 <= i < |more| ==> more[i] == flags[i + 1];
        ValueAfterFlag(more, known, name);
        AfterOne(SpellOne(flag), rest, FlagAt(more, name));
      }
    }
  }

  lemma AfterOne(one: Tokens, rest: Tokens, i: nat)
    ensures var all, j := one + rest, |one| + i;
      && (j + 1 < |all| <==> i + 1 < |rest|)
      && (i + 1 < |rest| ==> all[j + 1] == rest[i + 1])
  {
  }

  /** And then it returns what the parse assigns first. */
  lemma ReaderAgrees(args: Tokens, known: seq<string>, name: string)
    requires Gated(AfterSub(args), known) == Accepted && Undashed(name) && TakesValue(name)
    requires |args| >= 3 && Dashed(name) !in args[..3]
    requires PlainFirst(Parse(AfterSub(args)), name, Dashed(name))
    ensures FlagValue(args, Dashed(name)) == FirstAssigned(Parse(AfterSub(args)), name)
  {
    ReaderFindsExactly(args, known, name);
    AcceptedIsSpelled(AfterSub(args), known);
    ValueAfterFlag(Parse(AfterSub(args)), known, name);
  }

  lemma {:induction false} SpelledIn(flags: seq<Flag>, token: string)
    ensures token in Spell(flags) <==>
      exists i :: 0 <= i < |flags| && (flags[i].spelled == token || flags[i].value == Some(token))
  {
    if flags != [] {
      var flag := flags[0];
      SpelledIn(flags[1..], token);
      assert token in Spell(flags) <==> token in SpellOne(flag) || token in Spell(flags[1..]);
      assert token in SpellOne(flag) <==> flag.spelled == token || flag.value == Some(token);
      var more := flags[1..];
      if i: nat :| i < |more| && (more[i].spelled == token || more[i].value == Some(token)) {
        assert flags[i + 1] == more[i];
      }
      if i: nat :| i < |flags| && (flags[i].spelled == token || flags[i].value == Some(token)) {
        assert i > 0 ==> more[i - 1] == flags[i];
      }
    }
  }

  predicate Named(flags: seq<Flag>, name: string) {
    exists i :: 0 <= i < |flags| && flags[i].Name() == name
  }

  predicate Spelled(flags: seq<Flag>, token: string) {
    exists i :: 0 <= i < |flags| && flags[i].spelled == token
  }

  /** The token stands where no flag does: before them all, or as a value. */
  predicate Stray(args: Tokens, flags: seq<Flag>, token: string) {
    token in args[..if |args| < 3 then |args| else 3]
    || exists i :: 0 <= i < |flags| && flags[i].value == Some(token)
  }

  /** A flag that takes no value is looked for anywhere on the line. That tells
      whether it was given if and only if no stray token is spelled like it and
      it has two dashes once where it was given, or one is and it was given. */
  lemma StandingFlagExactly(args: Tokens, known: seq<string>, name: string)
    requires Gated(AfterSub(args), known) == Accepted && Undashed(name)
    ensures var flags, token := Parse(AfterSub(args)), Dashed(name);
      (token in args <==> Named(flags, name))
      <==> if Stray(args, flags, token) then Named(flags, name)
           else Named(flags, name) ==> Spelled(flags, token)
  {
    var tokens := AfterSub(args);
    var flags, token := Parse(tokens), Dashed(name);
    var head := args[..if |args| < 3 then |args| else 3];
    DashedNames(name);
    AcceptedIsSpelled(tokens, known);
    SpelledIn(flags, token);
    assert args == head + tokens;
    if i: nat :| i < |flags| && flags[i].spelled == token {
      assert flags[i].Name() == name;
    }
  }

  // ------------------------------------------------- where the two part company

  /** Any number of dashes passes the gate, and the reader wants two: a flag with
      one is accepted and then never seen. */
  lemma OneDashIsNeverSeen(head: Tokens, name: string, value: string, known: seq<string>)
    requires |head| == 3 && Undashed(name) && TakesValue(name) && name in known && '=' !in name
    requires Dashed(name) !in head && value != Dashed(name)
    ensures var args := head + [['-'] + name, value];
      && Gated(AfterSub(args), known) == Accepted
      && FirstAssigned(Parse(AfterSub(args)), name) == Some(value)
      && FlagValue(args, Dashed(name)) == None
  {
    var spelled := ['-'] + name;
    var args := head + [spelled, value];
    assert AfterSub(args) == [spelled, value];
    assert spelled[1..] == name && DropDashes(spelled) == name;
    assert [spelled, value][2..] == [];
    assert |spelled| < |Dashed(name)|;
    FlagValueSkipsAll(args, [], Dashed(name));
    assert args + [] == args;
  }

  /** A value spelled like a flag passes the gate unread, and the reader takes it
      for the flag, and the token after it for its value. */
  lemma ValueTakenForFlag(head: Tokens, first: string, name: string, next: string,
                          known: seq<string>)
    requires |head| == 3 && Undashed(first) && TakesValue(first) && first in known && '=' !in first
    requires first != name && Undashed(name) && Dashed(name) !in head && Undashed(next)
    requires next in known && '=' !in next && !TakesValue(next) && next != name
    ensures var args := head + [Dashed(first), Dashed(name), Dashed(next)];
      && Gated(AfterSub(args), known) == Accepted
      && FirstAssigned(Parse(AfterSub(args)), name) == None
      && FlagValue(args, Dashed(name)) == Some(Dashed(next))
  {
    var args := head + [Dashed(first), Dashed(name), Dashed(next)];
    var flags := [Flag(Dashed(first), Some(Dashed(name))), Flag(Dashed(next), None)];
    DashedNames(first);
    DashedNames(name);
    DashedNames(next);
    assert AllWellFormed(flags, known);
    assert Spell(flags[1..]) == [Dashed(next)];
    assert Spell(flags) == AfterSub(args);
    SpelledIsAccepted(flags, known);
    var last := [Flag(Dashed(next), None)];
    assert flags[1..] == last && last[1..] == [];
    assert FirstAssigned(last, name) == None;
    assert Dashed(first)[2..] != Dashed(name)[2..];
    assert args == (head + [Dashed(first)]) + [Dashed(name), Dashed(next)];
    FlagValueSkipsAll(head + [Dashed(first)], [Dashed(name), Dashed(next)], Dashed(name));
  }
}
