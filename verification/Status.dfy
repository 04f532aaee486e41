/** What `tobii bridge status` says of a prefix, and what the other two commands
    then do: it classifies the keys as `uninstall` acts on them, foretells the
    refusal `install` makes, and prints install lines that get past the gate and
    past the refusal of a foreign wine. */
module Status {
  import opened Wrappers
  import opened Text
  import opened RegQuery
  import Record
  import opened Bridge
  import opened BridgeRuns
  import opened OwnRuns
  import opened FastPath
  import opened Flags

  datatype PrefixSource = Steam(title: string) | Elsewhere

  /** Whether the prefix itself names the wine that was chosen. */
  datatype WineOrigin = OfPrefix | Unverified

  /** `steam_wine_refused` */
  predicate SteamWineRefused(source: PrefixSource, origin: WineOrigin, wineNamed: bool, forced: bool) {
    source.Steam? && origin != OfPrefix && !wineNamed && !forced
  }

  datatype KeyState =
    | KeyOurs(path: string)
    | KeyTheirs(path: string, recorded: bool)
    | KeyAbsent
    | KeyUnreadable(why: Why)

  /** `key_state` */
  function StateOf(current: Reading, wrote: Option<string>): KeyState {
    match current
    case Absent => KeyAbsent
    case Other(why) => KeyUnreadable(why)
    case Plain(v) => if IsOurs(current, wrote) then KeyOurs(v) else KeyTheirs(v, wrote.Some?)
  }

  datatype Presence = Here | NotHere | CannotTell

  /** What the report was made from; `readings` are there unless neither key
      could be read. */
  datatype Report = Report(
    source: PrefixSource,
    prefix: string,
    wine: string,
    origin: WineOrigin,
    wineGiven: bool,
    npclient: Option<string>,
    npTarget: string,
    dir: Presence,
    readings: Option<PerKey<Reading>>,
    record: Record.Entries)

  function KeyStateOf(s: Report, k: Key): KeyState
    requires s.readings.Some?
  {
    StateOf(s.readings.value.At(k), Record.Recorded(s.record, Name(k)))
  }

  predicate AnythingOfOurs(s: Report) {
    || s.dir != NotHere
    || (s.readings.Some? && (KeyStateOf(s, FT).KeyOurs? || KeyStateOf(s, NP).KeyOurs?))
  }

  predicate InTheWay(s: Report, k: Key)
    requires s.readings.Some?
  {
    StopsInstall(s.readings.value.At(k), Record.Recorded(s.record, Name(k)), WantFor(k, s.npTarget))
  }

  /** The keys of `keys` that are in the way, in their order. */
  function Blocking(s: Report, keys: seq<Key>): seq<Key> {
    if s.readings.None? || keys == [] then []
    else (if InTheWay(s, keys[0]) then [keys[0]] else []) + Blocking(s, keys[1..])
  }

  // ------------------------------------------------------------ printed lines

  const STEAM := "steam"
  const PREFIX := "prefix"
  const WINE := "wine"
  const ARTIFACTS := "artifacts"
  const NPCLIENT := "npclient"
  const FORCE := "force"

  /** The flags of `tobii bridge install`. */
  const INSTALL_FLAGS := [STEAM, PREFIX, WINE, ARTIFACTS, NPCLIENT, FORCE]

  const INSTALL: Tokens := ["tobii", "bridge", "install"]

  function Given(name: string, value: string): Flag {
    Flag(Dashed(name), Some(value))
  }

  function Where(s: Report): Flag {
    match s.source
    case Steam(title) => Given(STEAM, title)
    case Elsewhere => Given(PREFIX, s.prefix)
  }

  /** Whether `install`, spelled as this report was, is refused over its wine. */
  predicate ProtonUnknown(s: Report) {
    SteamWineRefused(s.source, s.origin, s.wineGiven, false)
  }

  function WineFlags(s: Report): seq<Flag> {
    if s.wineGiven then [Given(WINE, s.wine)] else []
  }

  function ClientFlags(s: Report): seq<Flag> {
    match s.npclient
    case None => []
    case Some(v) => [Given(NPCLIENT, v)]
  }

  /** What the user puts in the place of the build only they can name. */
  function ProtonFlags(s: Report, proton: string): seq<Flag> {
    if ProtonUnknown(s) then [Given(WINE, proton)] else []
  }

  function ForceFlags(forced: bool): seq<Flag> {
    if forced then [Flag(Dashed(FORCE), None)] else []
  }

  function InstallFlags(s: Report, proton: string, forced: bool): seq<Flag> {
    [Where(s)] + WineFlags(s) + ClientFlags(s) + ProtonFlags(s, proton) + ForceFlags(forced)
  }

  /** The tokens a shell makes of an install line of the report, `proton` filled
      in. */
  function InstallLine(s: Report, proton: string, forced: bool): Tokens {
    INSTALL + Spell(InstallFlags(s, proton, forced))
  }

  /** How `render_status` closes: with the line to undo an install, or with one
      to make it. */
  datatype Closing =
    | ToUndo
    | Blocked(keys: seq<Key>, line: Tokens)
    | NeitherRead(line: Tokens)
    | Free(line: Tokens)

  function ClosingOf(s: Report, proton: string): Closing {
    if AnythingOfOurs(s) then ToUndo
    else if Blocking(s, KEYS) != [] then Blocked(Blocking(s, KEYS), InstallLine(s, proton, true))
    else if s.readings.None? then NeitherRead(InstallLine(s, proton, false))
    else Free(InstallLine(s, proton, false))
  }

  // ---------------------------------------------------- status foretells install

  lemma BlockingIsTaken(s: Report)
    requires s.readings.Some?
    ensures Blocking(s, KEYS) == Taken(s.readings.value, s.record, s.npTarget)
  {
    assert KEYS[0] == FT && KEYS[1..] == [NP] && KEYS[1] == NP;
    var last: seq<Key> := [NP];
    assert last[1..] == [] && Blocking(s, []) == [];
    var readings, record := s.readings.value, s.record;
    assert TakenAmong(readings, record, s.npTarget, 0) == [];
    assert TakenAmong(readings, record, s.npTarget, 1) == if InTheWay(s, FT) then [FT] else [];
  }

  /** A report with nothing of ours in it foretells a refusal over the keys, and
      over which ones, exactly when an unforced install that finds the same
      readings and the same record makes one. */
  lemma ReportForetellsRefusal(s: Report, proton: string, w: World, source: NpSource,
                               env: InstallEnv)
    requires ValidPrefix(w.prefix) && !AnythingOfOurs(s)
    requires s.readings.Some? && NpTarget(source) == Some(s.npTarget)
    requires Readings(w.prefix, env.settled, env.queries) == Success(s.readings.value)
    requires s.record == ReadRecord(w.prefix, env.recordRead)
    ensures ClosingOf(s, proton).Blocked? <==> DoInstall(w, source, false, env).1.Refused?
    ensures ClosingOf(s, proton).Blocked? ==>
      DoInstall(w, source, false, env) == (w, Refused(ClosingOf(s, proton).keys))
    ensures !ClosingOf(s, proton).Blocked? ==>
      ClosingOf(s, proton) == Free(InstallLine(s, proton, false))
  {
    BlockingIsTaken(s);
    RefusedMeansTaken(w, source, false, env);
  }

  // -------------------------------------------------- status foretells uninstall

  /** `status` calls ours what `uninstall` takes out, and what `install` never
      stops on. */
  lemma StatesAreVerdicts(current: Reading, wrote: Option<string>, want: string)
    ensures StateOf(current, wrote).KeyOurs? <==> UndoFor(current, wrote) == Remove
    ensures StateOf(current, wrote).KeyAbsent? <==> UndoFor(current, wrote) == Nothing
    ensures StateOf(current, wrote).KeyTheirs? ==>
      && current == Plain(StateOf(current, wrote).path)
      && UndoFor(current, wrote) == Leave(StateOf(current, wrote).recorded)
    ensures StateOf(current, wrote).KeyUnreadable? ==>
      current == Other(StateOf(current, wrote).why) && UndoFor(current, wrote).Leave?
    ensures StopsInstall(current, wrote, want) ==> UndoFor(current, wrote).Leave?
  {
  }

  /** The slots once a key of which `status` said this was undone. */
  function Undone(slots: PerKey<Slot>, k: Key, state: KeyState): PerKey<Slot> {
    if state.KeyOurs? then slots.With(k, None) else slots
  }

  lemma ServedTurn(w: World, record: Record.Entries, env: UninstallEnv, k: Key, reading: Reading)
    requires ValidPrefix(w.prefix) && AllServed(env)
    requires WineReads(w.prefix.slots.At(k), k, env.queries.At(k), reading)
    ensures var (w1, turn) := UndoKey(w, record, env, k);
      && turn.Did?
      && w1.prefix.slots
         == Undone(w.prefix.slots, k, StateOf(reading, Record.Recorded(record, Name(k))))
  {
    StatesAreVerdicts(reading, Record.Recorded(record, Name(k)), "");
    TurnOf(w, record, env, k, reading);
    if Verdict(reading, record, k) == Remove {
      RemovedHere(w, k, env.queries.At(k), reading);
      ServedRemoval(w, record, env, k, reading);
    }
  }

  /** What wine reads as a path is there to be deleted. */
  lemma RemovedHere(w: World, k: Key, read: KeyRead, reading: Reading)
    requires ValidPrefix(w.prefix) && WineReads(w.prefix.slots.At(k), k, read, reading)
    requires reading != Absent
    ensures Delete(w, k, Served).prefix.slots == w.prefix.slots.With(k, None)
  {
    ReadKeyReads(k, w.prefix.slots.At(k), read);
  }

  lemma WineForetellsUninstall(s: Report, w: World, env: UninstallEnv)
    requires ValidPrefix(w.prefix) && s.readings.Some? && AllServed(env) && env.settled.None?
    requires WineReads(w.prefix.slots.ft, FT, env.queries.ft, s.readings.value.ft)
    requires WineReads(w.prefix.slots.np, NP, env.queries.np, s.readings.value.np)
    ensures UndoKeys(w, s.record, env).0.prefix.slots
         == Undone(Undone(w.prefix.slots, FT, KeyStateOf(s, FT)), NP, KeyStateOf(s, NP))
  {
    LoopUnfolds(w, s.record, env);
    ServedTurn(w, s.record, env, FT, s.readings.value.ft);
    ServedTurn(UndoKey(w, s.record, env, FT).0, s.record, env, NP, s.readings.value.np);
  }

  /** A key is emptied by the uninstall that follows if and only if the report
      said this installer registered it, where wine reads what the report read;
      whether the uninstall asks the file the report was read from first, or
      cannot. */
  lemma ReportForetellsUninstall(s: Report, w: World, env: UninstallEnv)
    requires ValidPrefix(w.prefix) && s.readings.Some? && AllServed(env)
    requires env.settled.Some? ==> env.settled == s.readings
    requires WineReads(w.prefix.slots.ft, FT, env.queries.ft, s.readings.value.ft)
    requires WineReads(w.prefix.slots.np, NP, env.queries.np, s.readings.value.np)
    ensures UndoKeys(w, s.record, env).0.prefix.slots
         == Undone(Undone(w.prefix.slots, FT, KeyStateOf(s, FT)), NP, KeyStateOf(s, NP))
  {
    if env.settled.Some? {
      FastPathRefines(w, s.record, env, s.readings.value);
    }
    WineForetellsUninstall(s, w, WineOnly(env));
  }

  /** A report closes with how to undo an install exactly when the directory is
      there, or may be, or the uninstall that follows would empty a key. */
  lemma ToUndoExactly(s: Report, proton: string, w: World, env: UninstallEnv)
    requires ValidPrefix(w.prefix) && AllServed(env)
    requires s.readings.Some? && (env.settled.Some? ==> env.settled == s.readings)
    requires WineReads(w.prefix.slots.ft, FT, env.queries.ft, s.readings.value.ft)
    requires WineReads(w.prefix.slots.np, NP, env.queries.np, s.readings.value.np)
    ensures ClosingOf(s, proton).ToUndo?
       <==> s.dir in {Here, CannotTell} || UndoKeys(w, s.record, env).0.prefix.slots != w.prefix.slots
  {
    ReportForetellsUninstall(s, w, env);
    ReadKeyReads(FT, w.prefix.slots.ft, env.queries.ft);
    ReadKeyReads(NP, w.prefix.slots.np, env.queries.np);
  }

  /** Where neither key could be read, it does so exactly for the directory, and
      otherwise says that they could not. */
  lemma UnreadClosesSo(s: Report, proton: string)
    requires s.readings.None?
    ensures ClosingOf(s, proton).ToUndo? <==> s.dir in {Here, CannotTell}
    ensures !ClosingOf(s, proton).ToUndo? ==>
      ClosingOf(s, proton) == NeitherRead(InstallLine(s, proton, false))
  {
  }

  // ------------------------------------------------------- the printed lines pass

  lemma KnownFlag(name: string, i: nat)
    requires i < |INSTALL_FLAGS| && name == INSTALL_FLAGS[i]
    ensures Undashed(name) && name in INSTALL_FLAGS && '=' !in name
    ensures TakesValue(name) <==> i != 5
  {
  }

  lemma GivenIsWellFormed(name: string, i: nat, value: string)
    requires i < 5 && name == INSTALL_FLAGS[i]
    ensures WellFormed(Given(name, value), INSTALL_FLAGS) && Given(name, value).Name() == name
  {
    KnownFlag(name, i);
    DashedNames(name);
  }

  lemma ForceIsWellFormed(forced: bool)
    ensures AllWellFormed(ForceFlags(forced), INSTALL_FLAGS)
  {
    KnownFlag(FORCE, 5);
    DashedNames(FORCE);
  }

  lemma InstallFlagsWellFormed(s: Report, proton: string, forced: bool)
    ensures AllWellFormed(InstallFlags(s, proton, forced), INSTALL_FLAGS)
  {
    GivenIsWellFormed(STEAM, 0, if s.source.Steam? then s.source.title else "");
    GivenIsWellFormed(PREFIX, 1, s.prefix);
    GivenIsWellFormed(WINE, 2, s.wine);
    GivenIsWellFormed(WINE, 2, proton);
    GivenIsWellFormed(NPCLIENT, 4, if s.npclient.Some? then s.npclient.value else "");
    ForceIsWellFormed(forced);
  }

  lemma LineParses(s: Report, proton: string, forced: bool)
    ensures Gated(AfterSub(InstallLine(s, proton, forced)), INSTALL_FLAGS) == Accepted
    ensures Parse(AfterSub(InstallLine(s, proton, forced))) == InstallFlags(s, proton, forced)
    ensures AfterSub(InstallLine(s, proton, forced)) == Spell(InstallFlags(s, proton, forced))
    ensures InstallLine(s, proton, forced)[..3] == INSTALL
  {
    InstallFlagsWellFormed(s, proton, forced);
    SpelledIsAccepted(InstallFlags(s, proton, forced), INSTALL_FLAGS);
    assert |INSTALL| == 3;
    assert InstallLine(s, proton, forced)[3..] == Spell(InstallFlags(s, proton, forced));
    assert Spell([]) == [];
    assert Spell(InstallFlags(s, proton, forced)) != [];
  }

  /** How a command line names its prefix. */
  datatype Naming = ByTitle(title: string) | ByPath(path: string) | ByDefault

  /** `resolve_prefix`, as far as the flags go. */
  function ReadNaming(line: Tokens): Naming {
    match FlagValue(line, Dashed(STEAM))
    case Some(title) => ByTitle(title)
    case None =>
      match FlagValue(line, Dashed(PREFIX))
      case Some(path) => ByPath(path)
      case None => ByDefault
  }

  /** How the prefix of the report is named, so that it is that one. */
  function NamingOf(s: Report): Naming {
    match s.source
    case Steam(title) => ByTitle(title)
    case Elsewhere => ByPath(s.prefix)
  }

  predicate ReadForce(line: Tokens) {
    Dashed(FORCE) in line
  }

  lemma HeadIsNoFlag(name: string, head: Tokens)
    requires head == INSTALL
    ensures Dashed(name) !in head
  {
    assert forall i :: 0 <= i < 3 ==> head[i][0] != '-';
  }

  // ------------------------------------------------------- the prefix they name

  /** The prefix is named by the very first flag, and is read from there. */
  lemma FirstFlagIsRead(s: Report, proton: string, forced: bool)
    ensures FlagValue(InstallLine(s, proton, forced), Where(s).spelled) == Where(s).value
  {
    var flags := InstallFlags(s, proton, forced);
    var name := if s.source.Steam? then STEAM else PREFIX;
    HeadIsNoFlag(name, INSTALL);
    FlagValueSkipsAll(INSTALL, Spell(flags), Dashed(name));
    assert flags[0] == Where(s);
    assert Spell(flags)[0] == Dashed(name) && Some(Spell(flags)[1]) == Where(s).value;
  }

  lemma {:induction false} ReadNowhere(args: Tokens, token: string)
    requires args != []
    ensures FlagValue(args, token).None? <==> token !in args[..|args| - 1]
  {
    if |args| > 1 {
      ReadNowhere(args[1..], token);
      assert args[..|args| - 1] == [args[0]] + args[1..][..|args| - 2];
    }
  }

  /** A printed line names the prefix of the report if and only if that was found
      by its title, or no token but the last is spelled `--steam`; and where it
      does not, it names a title instead. */
  lemma NamesThePrefix(s: Report, proton: string, forced: bool)
    ensures var line := InstallLine(s, proton, forced);
      && (ReadNaming(line) == NamingOf(s) <==>
            s.source.Steam? || Dashed(STEAM) !in line[..|line| - 1])
      && (ReadNaming(line) != NamingOf(s) ==> ReadNaming(line).ByTitle?)
  {
    var line := InstallLine(s, proton, forced);
    FirstFlagIsRead(s, proton, forced);
    ReadNowhere(line, Dashed(STEAM));
  }

  // ------------------------------------------ the refusal over a foreign wine

  lemma {:induction false} ValueFollows(flags: seq<Flag>, flag: Flag) returns (j: nat)
    requires flag in flags && flag.value.Some?
    ensures j + 1 < |Spell(flags)| && Spell(flags)[j] == flag.spelled
  {
    if flags[0] == flag {
      j := 0;
    } else {
      j := ValueFollows(flags[1..], flag);
      j := j + |SpellOne(flags[0])|;
    }
  }

  lemma {:induction false} FoundWithValue(args: Tokens, j: nat)
    requires j + 1 < |args|
    ensures FlagValue(args, args[j]).Some?
  {
    if args[0] != args[j] {
      FoundWithValue(args[1..], j - 1);
    }
  }

  lemma WineIsNamed(s: Report, proton: string, forced: bool)
    requires s.wineGiven || ProtonUnknown(s)
    ensures FlagValue(InstallLine(s, proton, forced), Dashed(WINE)).Some?
  {
    var flags, line := InstallFlags(s, proton, forced), InstallLine(s, proton, forced);
    var flag := Given(WINE, if s.wineGiven then s.wine else proton);
    assert flag in flags by {
      assert flag in WineFlags(s) || flag in ProtonFlags(s, proton);
    }
    var j := ValueFollows(flags, flag);
    assert line[|INSTALL| + j] == Dashed(WINE);
    FoundWithValue(line, |INSTALL| + j);
  }

  /** What `install` asks of its own command line before it reads a key. */
  predicate RefusedOverWine(source: PrefixSource, origin: WineOrigin, line: Tokens) {
    SteamWineRefused(source, origin, FlagValue(line, Dashed(WINE)).Some?, ReadForce(line))
  }

  predicate PassesWine(s: Report, line: Tokens) {
    !RefusedOverWine(s.source, s.origin, line)
  }

  /** `install` is refused over its wine exactly in a prefix found by its title whose
      own wine is not the one chosen, where `--force` is nowhere on the line, and
      `--wine` nowhere but at its end; and exactly for a line spelled with the
      flags of the report the report asks for a wine. */
  lemma RefusedOverWineExactly(s: Report, proton: string, line: Tokens)
    requires line != []
    ensures RefusedOverWine(s.source, s.origin, line)
       <==> && s.source.Steam? && s.origin == Unverified
            && "--force" !in line && "--wine" !in line[..|line| - 1]
    ensures Given(WINE, proton) in ProtonFlags(s, proton)
       <==> s.source.Steam? && s.origin == Unverified && !s.wineGiven
    ensures |ProtonFlags(s, proton)| <= 1
  {
    assert Dashed(WINE) == "--wine" && Dashed(FORCE) == "--force";
    ReadNowhere(line, Dashed(WINE));
  }

  /** Every install line a report closes with passes the gate. It names the prefix
      of the report if and only if that was found by its title or no token but
      the last is spelled `--steam`, and is then not refused over its wine. */
  lemma PrintedLinesPass(s: Report, proton: string)
    requires !ClosingOf(s, proton).ToUndo?
    ensures var line := ClosingOf(s, proton).line;
      && Gated(AfterSub(line), INSTALL_FLAGS) == Accepted
      && (ReadNaming(line) == NamingOf(s) <==>
            s.source.Steam? || Dashed(STEAM) !in line[..|line| - 1])
      && (ReadNaming(line) == NamingOf(s) ==> PassesWine(s, line))
  {
    var forced := ClosingOf(s, proton).Blocked?;
    LineParses(s, proton, forced);
    NamesThePrefix(s, proton, forced);
    if s.wineGiven || ProtonUnknown(s) {
      WineIsNamed(s, proton, forced);
    }
  }

  /** A prefix whose path is spelled `--steam`: the token after it is named for a
      title. */
  lemma PrefixSpelledSteam(s: Report, proton: string, client: string)
    requires s.source == Elsewhere && s.prefix == Dashed(STEAM)
    requires !s.wineGiven && s.npclient == Some(client) && s.dir == NotHere && s.readings.None?
    ensures ClosingOf(s, proton).NeitherRead?
    ensures ReadNaming(ClosingOf(s, proton).line) == ByTitle(Dashed(NPCLIENT))
  {
    var line := InstallLine(s, proton, false);
    var rest := [Dashed(STEAM), Dashed(NPCLIENT), client];
    HeadIsNoFlag(STEAM, INSTALL);
    assert Dashed(PREFIX)[2] == 'p' && Dashed(STEAM)[2] == 's';
    var head := INSTALL + [Dashed(PREFIX)];
    assert InstallFlags(s, proton, false) == [Given(PREFIX, s.prefix), Given(NPCLIENT, client)];
    SpellTwo(Given(PREFIX, s.prefix), Given(NPCLIENT, client));
    assert line == head + rest;
    FlagValueSkipsAll(head, rest, Dashed(STEAM));
  }

  lemma SpellTwo(a: Flag, b: Flag)
    requires a.value.Some? && b.value.Some?
    ensures Spell([a, b]) == [a.spelled, a.value.value, b.spelled, b.value.value]
  {
    assert [a, b][1..] == [b] && [b][1..] == [];
    assert Spell([b]) == [b.spelled, b.value.value];
  }

  // -------------------------------------------------------- the client they name

  lemma {:induction false} FirstNamedSkips(others: seq<Flag>, rest: seq<Flag>, name: string)
    requires forall i :: 0 <= i < |others| ==> others[i].Name() != name
    ensures FirstNamed(others + rest, name) == |others| + FirstNamed(rest, name)
    ensures FirstAssigned(others + rest, name) == FirstAssigned(rest, name)
  {
    if others == [] {
      assert others + rest == rest;
    } else {
      assert (others + rest)[1..] == others[1..] + rest;
      FirstNamedSkips(others[1..], rest, name);
    }
  }

  /** No flag before is of that name, and this is the one if any is. */
  predicate Holds(flags: seq<Flag>, name: string, before: seq<Flag>, value: Option<string>) {
    && (forall k :: 0 <= k < |before| ==> before[k].Name() != name)
    && before <= flags && (value.None? ==> flags == before)
    && (value.Some? ==> |before| < |flags| && flags[|before|] == Given(name, value.value))
  }

  lemma HeldIsFirst(flags: seq<Flag>, name: string, i: nat, before: seq<Flag>, value: Option<string>)
    requires i < 5 && name == INSTALL_FLAGS[i] && Holds(flags, name, before, value)
    ensures FirstAssigned(flags, name) == value && FirstNamed(flags, name) == |before|
  {
    if value.Some? {
      GivenIsWellFormed(name, i, value.value);
      assert flags == before + ([Given(name, value.value)] + flags[|before| + 1..]);
      FirstNamedSkips(before, [Given(name, value.value)] + flags[|before| + 1..], name);
    } else {
      assert flags == before + [];
      FirstNamedSkips(before, [], name);
    }
  }

  /** No value of the flags is spelled like this one. */
  predicate NoneSpelled(flags: seq<Flag>, name: string) {
    forall k :: 0 <= k < |flags| ==> flags[k].value != Some(Dashed(name))
  }

  lemma FlagReadsBack(s: Report, proton: string, forced: bool, name: string, i: nat,
                      before: seq<Flag>, value: Option<string>)
    requires i < 5 && name == INSTALL_FLAGS[i]
    requires Holds(InstallFlags(s, proton, forced), name, before, value)
    ensures var line := InstallLine(s, proton, forced);
      && (Position(line, Dashed(name)) == 3 + FlagAt(InstallFlags(s, proton, forced), name)
          <==> NoneSpelled(before, name))
      && (NoneSpelled(before, name) ==> FlagValue(line, Dashed(name)) == value)
  {
    var line, flags := InstallLine(s, proton, forced), InstallFlags(s, proton, forced);
    LineParses(s, proton, forced);
    KnownFlag(name, i);
    HeadIsNoFlag(name, INSTALL);
    HeldIsFirst(flags, name, i, before, value);
    ReaderFindsExactly(line, INSTALL_FLAGS, name);
    assert forall k :: 0 <= k < |before| ==> before[k] == flags[k];
    if PlainFirst(flags, name, Dashed(name)) {
      ReaderAgrees(line, INSTALL_FLAGS, name);
    }
  }

  lemma NamesOfFlags(s: Report, proton: string, forced: bool)
    ensures Where(s).Name() in {STEAM, PREFIX}
    ensures forall flag :: flag in WineFlags(s) || flag in ProtonFlags(s, proton) ==> flag.Name() == WINE
    ensures forall flag :: flag in ClientFlags(s) ==> flag.Name() == NPCLIENT
    ensures forall flag :: flag in ForceFlags(forced) ==> flag.Name() == FORCE
    ensures STEAM != WINE && PREFIX != WINE && NPCLIENT != WINE && FORCE != WINE
    ensures STEAM != NPCLIENT && PREFIX != NPCLIENT && FORCE != NPCLIENT
  {
    GivenIsWellFormed(STEAM, 0, "");
    GivenIsWellFormed(PREFIX, 1, s.prefix);
    GivenIsWellFormed(WINE, 2, "");
    GivenIsWellFormed(NPCLIENT, 4, "");
    KnownFlag(FORCE, 5);
    DashedNames(FORCE);
  }

  /** The flags before the client's, which are all of them if it has none. */
  function BeforeClient(s: Report, proton: string, forced: bool): seq<Flag> {
    [Where(s)] + WineFlags(s)
    + if s.npclient.Some? then [] else ProtonFlags(s, proton) + ForceFlags(forced)
  }

  /** The reader comes to the flag of the client the report was decided against,
      or to none where it had none, if and only if no value before it is spelled
      `--npclient`; and then reads that client. */
  lemma ClientReadsBack(s: Report, proton: string, forced: bool)
    ensures var line, flags := InstallLine(s, proton, forced), InstallFlags(s, proton, forced);
      var plain := NoneSpelled(BeforeClient(s, proton, forced), NPCLIENT);
      && (Position(line, Dashed(NPCLIENT)) == 3 + FlagAt(flags, NPCLIENT) <==> plain)
      && (plain ==> FlagValue(line, Dashed(NPCLIENT)) == s.npclient)
  {
    var before := BeforeClient(s, proton, forced);
    NamesOfFlags(s, proton, forced);
    forall k | 0 <= k < |before| ensures before[k].Name() != NPCLIENT {
      assert before[k] in before;
    }
    if s.npclient.None? {
      assert InstallFlags(s, proton, forced) == before;
    }
    FlagReadsBack(s, proton, forced, NPCLIENT, 4, before, s.npclient);
  }

  /** The wine the line is to be run with: the one the report was given, or the one
      the user is asked for. */
  function WineNamed(s: Report, proton: string): Option<string> {
    if s.wineGiven then Some(s.wine)
    else if s.source.Steam? && s.origin == Unverified then Some(proton)
    else None
  }

  function BeforeWine(s: Report, forced: bool): seq<Flag> {
    [Where(s)] + if s.wineGiven then []
                 else ClientFlags(s) + if ProtonUnknown(s) then [] else ForceFlags(forced)
  }

  /** Likewise for the wine. */
  lemma WineReadsBack(s: Report, proton: string, forced: bool)
    ensures var line, flags := InstallLine(s, proton, forced), InstallFlags(s, proton, forced);
      var plain := NoneSpelled(BeforeWine(s, forced), WINE);
      && (Position(line, Dashed(WINE)) == 3 + FlagAt(flags, WINE) <==> plain)
      && (plain ==> FlagValue(line, Dashed(WINE)) == WineNamed(s, proton))
  {
    var before := BeforeWine(s, forced);
    NamesOfFlags(s, proton, forced);
    forall k | 0 <= k < |before| ensures before[k].Name() != WINE {
      assert before[k] in before;
    }
    if WineNamed(s, proton).None? {
      assert InstallFlags(s, proton, forced) == before;
    }
    FlagReadsBack(s, proton, forced, WINE, 2, before, WineNamed(s, proton));
  }

  /** Over keys in the way, and only there, the line has `--force` as its last flag;
      elsewhere it stands on the line only as another flag's value. */
  lemma ForcedExactly(s: Report, proton: string)
    requires !ClosingOf(s, proton).ToUndo?
    ensures var line := ClosingOf(s, proton).line;
      if ClosingOf(s, proton).Blocked? then line[|line| - 1] == "--force"
      else "--force" in line ==>
        exists flag :: flag in InstallFlags(s, proton, false) && flag.value == Some("--force")
  {
    var forced := ClosingOf(s, proton).Blocked?;
    var flags, line := InstallFlags(s, proton, forced), InstallLine(s, proton, forced);
    assert Dashed(FORCE) == "--force";
    NamesOfFlags(s, proton, forced);
    SpelledIn(flags, Dashed(FORCE));
    HeadIsNoFlag(FORCE, INSTALL);
    if forced {
      var more := flags[..|flags| - 1];
      assert flags == more + ForceFlags(true);
      SpellLast(more, Flag(Dashed(FORCE), None));
    } else if "--force" in line {
      NotForced(flags, s, proton);
    }
  }

  lemma NotForced(flags: seq<Flag>, s: Report, proton: string)
    requires flags == InstallFlags(s, proton, false) && Dashed(FORCE) in Spell(flags)
    ensures exists flag :: flag in flags && flag.value == Some(Dashed(FORCE))
  {
    SpelledIn(flags, Dashed(FORCE));
    NamesOfFlags(s, proton, false);
    KnownFlag(FORCE, 5);
    DashedNames(FORCE);
    var k: nat :| k < |flags| && (flags[k].spelled == Dashed(FORCE) || flags[k].value == Some(Dashed(FORCE)));
    assert flags[k] in flags && flags[k].Name() in {STEAM, PREFIX, WINE, NPCLIENT};
    assert STEAM != FORCE && PREFIX != FORCE;
  }

  lemma {:induction false} SpellLast(flags: seq<Flag>, last: Flag)
    requires last.value == None
    ensures Spell(flags + [last]) == Spell(flags) + [last.spelled]
  {
    if flags == [] {
      assert Spell([last]) == SpellOne(last) + Spell([]);
    } else {
      assert (flags + [last])[1..] == flags[1..] + [last];
      SpellLast(flags[1..], last);
    }
  }
}
