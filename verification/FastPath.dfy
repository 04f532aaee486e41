/** `uninstall` asks the prefix's own file first, and starts no wine where the
    file shows nothing to remove. When that changes nothing of what wine would
    have made it do, and when it does. */
module FastPath {
  import opened Wrappers
  import opened Text
  import opened RegQuery
  import opened UserReg
  import Record
  import opened Bridge
  import opened BridgeRuns
  import opened OwnRuns

  function Verdict(reading: Reading, record: Record.Entries, k: Key): Undo {
    UndoFor(reading, Record.Recorded(record, Name(k)))
  }

  /** The uninstall that never looks at the file. */
  function WineOnly(env: UninstallEnv): UninstallEnv {
    env.(settled := None)
  }

  lemma LoopIgnoresTheFile(w: World, record: Record.Entries, env: UninstallEnv)
    requires ValidPrefix(w.prefix)
    ensures BothResults(w, record, env) == BothResults(w, record, WineOnly(env))
  {
    TurnIgnoresTheFile(w, record, env, FT);
    TurnIgnoresTheFile(UndoKey(w, record, env, FT).0, record, env, NP);
  }

  lemma TurnIgnoresTheFile(w: World, record: Record.Entries, env: UninstallEnv, k: Key)
    requires ValidPrefix(w.prefix)
    ensures UndoKey(w, record, env, k) == UndoKey(w, record, WineOnly(env), k)
  {
  }

  /** Wine can read the key, and reads this. */
  predicate WineReads(slot: Slot, k: Key, read: KeyRead, reading: Reading)
    requires ValidSlot(slot)
  {
    ReadKey(k, slot, read) == Success(reading)
  }

  lemma TurnOf(w: World, record: Record.Entries, env: UninstallEnv, k: Key, reading: Reading)
    requires ValidPrefix(w.prefix)
    requires WineReads(w.prefix.slots.At(k), k, env.queries.At(k), reading)
    ensures var undo := Verdict(reading, record, k);
      if undo != Remove then UndoKey(w, record, env, k) == (w, Did(Untouched(undo)))
      else UndoKey(w, record, env, k).1 in {WineLost, Did(Removed), Did(Failed)}
  {
  }

  /** Where wine serves everything, a key to remove is removed. */
  lemma ServedRemoval(w: World, record: Record.Entries, env: UninstallEnv, k: Key, reading: Reading)
    requires ValidPrefix(w.prefix) && AllServed(env)
    requires WineReads(w.prefix.slots.At(k), k, env.queries.At(k), reading)
    requires Verdict(reading, record, k) == Remove
    ensures UndoKey(w, record, env, k) == (Delete(w, k, Served), Did(Removed))
  {
  }

  lemma Verdicts(a: Undo, b: Undo)
    requires a != Remove && b != Remove
    ensures Untouched(a) == Untouched(b) <==> a == b
    ensures Untouched(a) !in {Removed, Failed}
  {
  }

  /** The file stops the command early exactly when it shows no key of ours. */
  lemma EarlyReturn(readings: PerKey<Reading>, record: Record.Entries)
    ensures Settle(readings, record, |KEYS|).Some?
       <==> && !IsOurs(readings.ft, Record.Recorded(record, Name(FT)))
            && !IsOurs(readings.np, Record.Recorded(record, Name(NP)))
  {
    SettleUnfolds(readings, record);
  }

  predicate SameVerdicts(file: PerKey<Reading>, wine: PerKey<Reading>, record: Record.Entries) {
    && Verdict(file.ft, record, FT) == Verdict(wine.ft, record, FT)
    && Verdict(file.np, record, NP) == Verdict(wine.np, record, NP)
  }

  /** Where wine can read both keys, looking at the file first changes neither
      the keys nor what is reported if and only if the file shows a key to
      remove, or gives both keys the verdicts wine would. */
  lemma FastPathRefines(w: World, record: Record.Entries, env: UninstallEnv, wine: PerKey<Reading>)
    requires ValidPrefix(w.prefix) && env.settled.Some?
    requires WineReads(w.prefix.slots.ft, FT, env.queries.ft, wine.ft)
    requires WineReads(w.prefix.slots.np, NP, env.queries.np, wine.np)
    ensures UndoKeys(w, record, env) == UndoKeys(w, record, WineOnly(env))
       <==> || Settle(env.settled.value, record, |KEYS|).None?
            || SameVerdicts(env.settled.value, wine, record)
  {
    var file := env.settled.value;
    LoopUnfolds(w, record, env);
    LoopUnfolds(w, record, WineOnly(env));
    LoopIgnoresTheFile(w, record, env);
    SettleUnfolds(file, record);
    if Settle(file, record, |KEYS|).Some? {
      SettledAgainstWine(w, record, env, wine);
    }
  }

  lemma SettledAgainstWine(w: World, record: Record.Entries, env: UninstallEnv,
                           wine: PerKey<Reading>)
    requires ValidPrefix(w.prefix) && env.settled.Some?
    requires WineReads(w.prefix.slots.ft, FT, env.queries.ft, wine.ft)
    requires WineReads(w.prefix.slots.np, NP, env.queries.np, wine.np)
    requires Verdict(env.settled.value.ft, record, FT) != Remove
    requires Verdict(env.settled.value.np, record, NP) != Remove
    ensures BothResults(w, record, env)
         == (w, Done([Untouched(Verdict(env.settled.value.ft, record, FT)),
                      Untouched(Verdict(env.settled.value.np, record, NP))]))
       <==> SameVerdicts(env.settled.value, wine, record)
  {
    var fileFt := Verdict(env.settled.value.ft, record, FT);
    var fileNp := Verdict(env.settled.value.np, record, NP);
    var wineFt, wineNp := Verdict(wine.ft, record, FT), Verdict(wine.np, record, NP);
    var first := UndoKey(w, record, env, FT);
    var second := UndoKey(first.0, record, env, NP);
    TurnOf(w, record, env, FT, wine.ft);
    if wineFt == Remove {
      Verdicts(fileFt, fileFt);
      RemovedShows(first, second, Untouched(fileFt), Untouched(fileNp));
    } else {
      Verdicts(fileFt, wineFt);
      Verdicts(fileNp, fileNp);
      TurnOf(w, record, env, NP, wine.np);
      if wineNp != Remove {
        Verdicts(fileNp, wineNp);
      }
      LastShows(second, Untouched(wineFt), Untouched(fileFt), Untouched(fileNp));
    }
  }

  lemma RemovedShows(first: (World, UndoTurn), second: (World, UndoTurn), a: Outcome, b: Outcome)
    requires first.1 in {WineLost, Did(Removed), Did(Failed)} && a !in {Removed, Failed}
    ensures first.1.Did? ==> After(second, [first.1.outcome]).1 != Done([a, b])
    ensures !first.1.Did? ==> After(first, []).1 != Done([a, b])
  {
    if first.1.Did? && second.1.Did? {
      assert ([first.1.outcome] + [second.1.outcome])[0] != [a, b][0];
    }
  }

  lemma LastShows(second: (World, UndoTurn), one: Outcome, a: Outcome, b: Outcome)
    ensures After(second, [one]).1 == Done([a, b]) <==> one == a && second.1 == Did(b)
  {
    if second.1.Did? {
      var both := [one] + [second.1.outcome];
      assert both[0] == one && both[1] == second.1.outcome;
      assert both == [one, second.1.outcome];
    }
  }

  // ------------------------------------------------- the file against wine

  /** What wine makes of a key it serves. */
  function Printed(slot: Slot): Reading {
    if slot.None? then Absent else ReadingOf(slot.value.ty, slot.value.shown)
  }

  /** Empty, broken over lines, or free of control characters and not set off by
      a space. */
  predicate ReadAlike(text: string) {
    text == "" || '\n' in text
    || (text[0] != ' ' && forall i :: 0 <= i < |text| ==> ' ' <= text[i] <= '~')
  }

  lemma ControlSeen(text: string, i: nat)
    requires i < |text| && IsControl(text[i])
    ensures HasControl(text)
  {
  }

  lemma PrintableExactly(text: string)
    requires IsAscii(text)
    ensures !HasControl(text) <==> forall i :: 0 <= i < |text| ==> ' ' <= text[i] <= '~'
  {
    if i: nat :| i < |text| && !(' ' <= text[i] <= '~') {
      ControlSeen(text, i);
    }
  }

  lemma BlankOrControl(text: string)
    requires IsAscii(text) && text != "" && !HasControl(text)
    ensures IsWhitespace(text[0]) <==> text[0] == ' '
    ensures '\r' !in text && '\n' !in text
  {
    assert forall i :: 0 <= i < |text| ==> !IsControl(text[i]);
  }

  /** Of a plain ASCII value the file and wine read the same thing exactly when it
      is empty, or broken over lines, which neither reads; or free of control
      characters and not set off by a space. */
  lemma FileAndWineAgree(v: RegValue)
    requires ValidRegValue(v) && v.ty == "REG_SZ" && IsAscii(v.text)
    ensures FileReading(Some(v)) == Printed(Some(v)) <==> ReadAlike(v.text)
  {
    var text := v.text;
    assert OneUnitEach(text);
    LineFeedByte(text);
    if text != "" && '\n' !in text {
      PrintableExactly(text);
      if HasControl(text) {
        assert FileReading(Some(v)) in {Other(LineBreak), Other(Control)};
      } else {
        BlankOrControl(text);
        TrimmedAlike(text);
      }
    }
  }

  lemma TrimmedAlike(text: string)
    requires text != ""
    ensures TrimStart(text) == text <==> !IsWhitespace(text[0])
  {
    if IsWhitespace(text[0]) {
      assert |TrimStart(text)| <= |text[1..]|;
    }
  }

  predicate ReadableBy(w: World, env: UninstallEnv)
    requires ValidPrefix(w.prefix)
  {
    && WineReads(w.prefix.slots.ft, FT, env.queries.ft, Printed(w.prefix.slots.ft))
    && WineReads(w.prefix.slots.np, NP, env.queries.np, Printed(w.prefix.slots.np))
  }

  predicate OursInFile(slots: PerKey<Slot>, record: Record.Entries, k: Key) {
    IsOurs(FileReading(slots.At(k)), Record.Recorded(record, Name(k)))
  }

  predicate OursInWine(slots: PerKey<Slot>, record: Record.Entries, k: Key) {
    IsOurs(Printed(slots.At(k)), Record.Recorded(record, Name(k)))
  }

  lemma VerdictsDiffer(slot: Slot, wrote: Option<string>)
    requires !IsOurs(FileReading(slot), wrote)
    ensures UndoFor(FileReading(slot), wrote) == UndoFor(Printed(slot), wrote)
       <==> !IsOurs(Printed(slot), wrote)
  {
  }

  /** Told of what the keys hold: looking at the file first changes what an
      uninstall does if and only if the file shows no key of ours, and wine would
      have shown one. */
  lemma FastPathDiffersExactly(w: World, record: Record.Entries, env: UninstallEnv)
    requires ValidPrefix(w.prefix) && ReadableBy(w, env)
    requires env.settled.Some? && FromFile(w.prefix.slots, env.settled)
    ensures UndoKeys(w, record, env) != UndoKeys(w, record, WineOnly(env))
       <==> var slots := w.prefix.slots;
            && !OursInFile(slots, record, FT) && !OursInFile(slots, record, NP)
            && (OursInWine(slots, record, FT) || OursInWine(slots, record, NP))
  {
    var slots := w.prefix.slots;
    FastPathRefines(w, record, env, PerKey(Printed(slots.ft), Printed(slots.np)));
    EarlyReturn(env.settled.value, record);
    if !OursInFile(slots, record, FT) && !OursInFile(slots, record, NP) {
      VerdictsDiffer(slots.ft, Record.Recorded(record, Name(FT)));
      VerdictsDiffer(slots.np, Record.Recorded(record, Name(NP)));
    }
  }

  predicate OwnDirectoryInFile(slots: PerKey<Slot>) {
    OursInFile(slots, [], FT) || OursInFile(slots, [], NP)
  }

  /** No path wine reads is another, or none, in the file. */
  predicate PathsAlike(slots: PerKey<Slot>) {
    && (Printed(slots.ft).Plain? ==> FileReading(slots.ft) == Printed(slots.ft))
    && (Printed(slots.np).Plain? ==> FileReading(slots.np) == Printed(slots.np))
  }

  /** A record under which wine shows the key and the file does not. */
  lemma TellingRecord(slots: PerKey<Slot>, k: Key) returns (record: Record.Entries)
    requires ValidSlot(slots.At(k)) && !OwnDirectoryInFile(slots)
    requires Printed(slots.At(k)).Plain? && FileReading(slots.At(k)) != Printed(slots.At(k))
    ensures OursInWine(slots, record, k)
    ensures !OursInFile(slots, record, FT) && !OursInFile(slots, record, NP)
  {
    var path := Printed(slots.At(k)).path;
    record := [Record.Entry(Name(k), path)];
    EqIgnoreAsciiCaseRefl(path);
    NamesDiffer();
    OtherInFile(slots.At(k).value, path);
    assert Record.Recorded(record[1..], Name(FT)) == None;
    assert Record.Recorded(record[1..], Name(NP)) == None;
  }

  lemma TrimmedIsAscii(s: string)
    requires IsAscii(s)
    ensures IsAscii(TrimStart(s))
  {
    var lead := TrimStartSplit(s);
    assert forall i :: 0 <= i < |TrimStart(s)| ==> TrimStart(s)[i] == s[|lead| + i];
  }

  /** What the file reads instead is no respelling of what wine reads. */
  lemma OtherInFile(v: RegValue, path: string)
    requires ValidRegValue(v) && ReadingOf(v.ty, v.shown) == Plain(path)
    requires FileReading(Some(v)) != Plain(path)
    ensures FileReading(Some(v)).Plain? ==> !EqIgnoreAsciiCase(FileReading(Some(v)).path, path)
  {
    if FileReading(Some(v)).Plain? {
      if IsAscii(v.text) {
        TrimmedAlike(v.text);
        assert |path| < |v.text|;
      } else if EqIgnoreAsciiCase(v.text, path) {
        TrimmedIsAscii(Decode(v.shown));
        EqualToAscii(v.text, path);
      }
    }
  }

  /** Whatever the record: the two paths never part company if and only if the
      file shows our own directory in one of the keys, or reads every path that
      wine reads, and as the same one. */
  lemma NeverDifferExactly(w: World, env: UninstallEnv)
    requires ValidPrefix(w.prefix) && ReadableBy(w, env)
    requires env.settled.Some? && FromFile(w.prefix.slots, env.settled)
    ensures (forall record :: UndoKeys(w, record, env) == UndoKeys(w, record, WineOnly(env)))
       <==> OwnDirectoryInFile(w.prefix.slots) || PathsAlike(w.prefix.slots)
  {
    var slots := w.prefix.slots;
    if OwnDirectoryInFile(slots) || PathsAlike(slots) {
      forall record ensures UndoKeys(w, record, env) == UndoKeys(w, record, WineOnly(env)) {
        FastPathDiffersExactly(w, record, env);
      }
    } else {
      var k := if Printed(slots.ft).Plain? && FileReading(slots.ft) != Printed(slots.ft)
        then FT else NP;
      var record := TellingRecord(slots, k);
      FastPathDiffersExactly(w, record, env);
    }
  }

  /** A value set off by a space is where they differ: wine drops the space and
      sees our own directory, the file keeps it and sees a stranger's path. */
  lemma SpaceTellsThemApart(w: World, env: UninstallEnv, text: string)
    requires ValidPrefix(w.prefix) && AllServed(env)
    requires text == [' '] + INSTALL_WIN_DIR && IsAscii(text)
    requires w.prefix.slots == PerKey(Some(RegValue("REG_SZ", text, Encode(text))), None)
    requires env.settled.Some? && FromFile(w.prefix.slots, env.settled)
    ensures UndoKeys(w, [], env) == (w, Done([Left(false), NothingThere]))
    ensures UndoKeys(w, [], WineOnly(env))
         == (Delete(w, FT, Served), Done([Removed, NothingThere]))
  {
    SpacedInFile(text);
    SettleUnfolds(env.settled.value, []);
    assert |text| == |INSTALL_WIN_DIR| + 1;
    ReadKeyReads(FT, w.prefix.slots.ft, env.queries.ft);
    LineFeedByte(text);
    OwnDirectoryIsWritable();
    TrimStartUnique([' '], INSTALL_WIN_DIR);
    EqIgnoreAsciiCaseRefl(INSTALL_WIN_DIR);
    LoopUnfolds(w, [], WineOnly(env));
    RemovesFirst(w, WineOnly(env));
  }

  lemma SpacedInFile(text: string)
    requires text == [' '] + INSTALL_WIN_DIR && IsAscii(text)
    ensures FileReading(Some(RegValue("REG_SZ", text, Encode(text)))) == Plain(text)
  {
    assert OneUnitEach(text);
    OwnDirectoryHasNoControl();
    assert forall i :: 0 < i < |text| ==> text[i] == INSTALL_WIN_DIR[i - 1];
    if i: nat :| i < |text| && IsControl(text[i]) {
      ControlSeen(INSTALL_WIN_DIR, i - 1);
    }
    BlankOrControl(text);
  }

  lemma RemovesFirst(w: World, env: UninstallEnv)
    requires ValidPrefix(w.prefix) && AllServed(env)
    requires w.prefix.slots.ft.Some? && w.prefix.slots.np.None?
    requires WineReads(w.prefix.slots.ft, FT, env.queries.ft, Plain(INSTALL_WIN_DIR))
    ensures BothResults(w, [], env) == (Delete(w, FT, Served), Done([Removed, NothingThere]))
  {
    OwnInFirst(w, env);
    NothingInSecond(Delete(w, FT, Served), env);
    assert [Removed] + [NothingThere] == [Removed, NothingThere];
  }

  lemma OwnInFirst(w: World, env: UninstallEnv)
    requires ValidPrefix(w.prefix) && AllServed(env)
    requires WineReads(w.prefix.slots.ft, FT, env.queries.ft, Plain(INSTALL_WIN_DIR))
    ensures UndoKey(w, [], env, FT) == (Delete(w, FT, Served), Did(Removed))
    ensures ValidPrefix(Delete(w, FT, Served).prefix)
  {
    EqIgnoreAsciiCaseRefl(INSTALL_WIN_DIR);
  }

  lemma NothingInSecond(w: World, env: UninstallEnv)
    requires ValidPrefix(w.prefix) && AllServed(env) && w.prefix.slots.np.None?
    ensures UndoKey(w, [], env, NP) == (w, Did(NothingThere))
  {
    ReadKeyReads(NP, None, env.queries.np);
  }
}
