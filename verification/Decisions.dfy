/** What the commands do, told of what the keys hold and not of how it was read:
    which keys `install` refuses over, which `uninstall` empties, and what a
    registration leaves behind. */
module Decisions {
  import opened Wrappers
  import opened Text
  import opened RegQuery
  import opened UserReg
  import Record
  import opened Bridge
  import opened BridgeRuns
  import opened OwnRuns
  import opened FastPath

  /** Wine prints the value as one plain line, which is this path; or the file
      holds it without a control character. */
  predicate ReadsAs(byFile: bool, v: RegValue, path: string) {
    && v.ty == "REG_SZ" && path != ""
    && if byFile then InFile(v.text) && path == v.text
       else AsciiBytes(v.shown) && LF !in v.shown && path == TrimStart(Decode(v.shown))
  }

  /** No control character, and none that takes two UTF-16 units. */
  predicate InFile(text: string) {
    forall i :: 0 <= i < |text| ==> 0x20 <= text[i] as int < 0x7F || 0xA0 <= text[i] as int < 0x1_0000
  }

  ghost predicate ReadsLike(byFile: bool, v: RegValue, path: string) {
    exists found :: ReadsAs(byFile, v, found) && SameButCase(found, path)
  }

  /** Our own directory, or the path the record says was written there. */
  ghost predicate Known(byFile: bool, v: RegValue, wrote: Option<string>) {
    ReadsLike(byFile, v, INSTALL_WIN_DIR) || (wrote.Some? && ReadsLike(byFile, v, wrote.value))
  }

  ghost predicate SlotKnown(byFile: bool, slot: Slot, wrote: Option<string>) {
    slot.Some? && Known(byFile, slot.value, wrote)
  }

  /** What install stops on: a value it neither knows nor, in a key it has no
      record of, is about to write. */
  ghost predicate InTheWayOf(byFile: bool, slot: Slot, wrote: Option<string>, want: string) {
    && slot.Some? && !Known(byFile, slot.value, wrote)
    && !(wrote.None? && ReadsLike(byFile, slot.value, want))
  }

  function Seen(byFile: bool, slot: Slot): Reading {
    if byFile then FileReading(slot) else Printed(slot)
  }

  predicate Reachable(read: KeyRead) {
    read.query.Served? && read.probe.Served?
  }

  lemma ReachableIsRead(k: Key, slot: Slot, read: KeyRead)
    requires ValidSlot(slot) && Reachable(read)
    ensures ReadKey(k, slot, read) == Success(Printed(slot))
  {
    ReadKeyReads(k, slot, read);
  }

  lemma SeenAs(byFile: bool, v: RegValue, path: string)
    ensures Seen(byFile, Some(v)) == Plain(path) <==> ReadsAs(byFile, v, path)
  {
    if byFile {
      ReadTextExactly(v.text, path);
    }
  }

  lemma SeenLike(byFile: bool, slot: Slot, path: string)
    ensures slot.Some? && ReadsLike(byFile, slot.value, path)
       <==> Seen(byFile, slot).Plain? && SameButCase(Seen(byFile, slot).path, path)
  {
    if slot.Some? {
      if Seen(byFile, slot).Plain? {
        SeenAs(byFile, slot.value, Seen(byFile, slot).path);
      }
      if found :| ReadsAs(byFile, slot.value, found) && SameButCase(found, path) {
        SeenAs(byFile, slot.value, found);
      }
    }
  }

  lemma KnownIsOurs(byFile: bool, slot: Slot, wrote: Option<string>)
    ensures IsOurs(Seen(byFile, slot), wrote) <==> SlotKnown(byFile, slot, wrote)
    ensures Seen(byFile, slot) == Absent <==> slot.None?
  {
    SeenLike(byFile, slot, INSTALL_WIN_DIR);
    if wrote.Some? {
      SeenLike(byFile, slot, wrote.value);
    }
  }

  lemma StopsExactly(byFile: bool, slot: Slot, wrote: Option<string>, want: string)
    ensures StopsInstall(Seen(byFile, slot), wrote, want) <==> InTheWayOf(byFile, slot, wrote, want)
  {
    KnownIsOurs(byFile, slot, wrote);
    SeenLike(byFile, slot, want);
  }

  lemma TakenMembers(readings: PerKey<Reading>, record: Record.Entries, npTarget: string, k: Key)
    ensures k in Taken(readings, record, npTarget) <==>
      StopsInstall(readings.At(k), Record.Recorded(record, Name(k)), WantFor(k, npTarget))
  {
    assert KEYS[0] == FT && KEYS[1] == NP;
    var none := TakenAmong(readings, record, npTarget, 0);
    var one := TakenAmong(readings, record, npTarget, 1);
    assert FT in one <==> StopsInstall(readings.At(FT), Record.Recorded(record, Name(FT)),
                                       WantFor(FT, npTarget));
    assert NP !in one;
  }

  /** An install that can read the keys, out of the file or through wine, is refused
      over a key if and only if it is unforced and what the key holds is in the
      way. */
  lemma RefusedExactly(w: World, source: NpSource, forced: bool, env: InstallEnv, k: Key)
    requires ValidPrefix(w.prefix) && NpTarget(source).Some?
    requires FromFile(w.prefix.slots, env.settled)
    requires env.settled.None? ==> Reachable(env.queries.ft) && Reachable(env.queries.np)
    ensures var outcome := DoInstall(w, source, forced, env).1;
      outcome.Refused? && k in outcome.taken
      <==> && !forced
           && InTheWayOf(env.settled.Some?, w.prefix.slots.At(k),
                         Record.Recorded(ReadRecord(w.prefix, env.recordRead), Name(k)),
                         if k == NP then NpTarget(source).value else INSTALL_WIN_DIR)
  {
    var slots, record := w.prefix.slots, ReadRecord(w.prefix, env.recordRead);
    var byFile, target := env.settled.Some?, NpTarget(source).value;
    var readings := PerKey(Seen(byFile, slots.ft), Seen(byFile, slots.np));
    if !byFile {
      ReachableIsRead(FT, slots.ft, env.queries.ft);
      ReachableIsRead(NP, slots.np, env.queries.np);
    }
    assert Readings(w.prefix, env.settled, env.queries) == Success(readings);
    RefusedOver(w, source, forced, env, readings);
    TakenMembers(readings, record, target, k);
    StopsExactly(byFile, slots.At(k), Record.Recorded(record, Name(k)), WantFor(k, target));
  }

  lemma RefusedOver(w: World, source: NpSource, forced: bool, env: InstallEnv,
                    readings: PerKey<Reading>)
    requires ValidPrefix(w.prefix) && NpTarget(source).Some?
    requires Readings(w.prefix, env.settled, env.queries) == Success(readings)
    ensures var outcome := DoInstall(w, source, forced, env).1;
      var taken := Taken(readings, ReadRecord(w.prefix, env.recordRead), NpTarget(source).value);
      if outcome.Refused? then !forced && outcome.taken == taken else forced || taken == []
  {
    TargetIsRegistrable(source);
  }

  /** What is reported of a key an uninstall was able to deal with, `emptied` or
      not. */
  function Reported(slot: Slot, wrote: Option<string>, emptied: bool): Outcome {
    if slot.None? then NothingThere else if emptied then Removed else Left(wrote.Some?)
  }

  lemma VerdictExactly(slot: Slot, record: Record.Entries, k: Key)
    ensures var wrote := Record.Recorded(record, Name(k));
      var verdict := Verdict(Printed(slot), record, k);
      && (verdict == Remove <==> SlotKnown(false, slot, wrote))
      && (verdict != Remove ==> Untouched(verdict) == Reported(slot, wrote, false))
  {
    KnownIsOurs(false, slot, Record.Recorded(record, Name(k)));
  }

  lemma TurnExactly(w: World, record: Record.Entries, env: UninstallEnv, k: Key)
    requires ValidPrefix(w.prefix) && AllServed(env)
    ensures var slot, wrote := w.prefix.slots.At(k), Record.Recorded(record, Name(k));
      UndoKey(w, record, env, k)
      == (if SlotKnown(false, slot, wrote) then Delete(w, k, Served) else w,
          Did(Reported(slot, wrote, SlotKnown(false, slot, wrote))))
  {
    var slot := w.prefix.slots.At(k);
    ReachableIsRead(k, slot, env.queries.At(k));
    VerdictExactly(slot, record, k);
    TurnOf(w, record, env, k, Printed(slot));
    if Verdict(Printed(slot), record, k) == Remove {
      ServedRemoval(w, record, env, k, Printed(slot));
    }
  }

  function Emptied(slot: Slot, emptied: bool): Slot {
    if emptied then None else slot
  }

  lemma LoopExactly(w: World, record: Record.Entries, env: UninstallEnv)
    requires ValidPrefix(w.prefix) && AllServed(env)
    ensures var slots := w.prefix.slots;
      var ft, np := Record.Recorded(record, Name(FT)), Record.Recorded(record, Name(NP));
      var noFt, noNp := SlotKnown(false, slots.ft, ft), SlotKnown(false, slots.np, np);
      var (w1, result) := BothResults(w, record, env);
      && w1.prefix.slots == PerKey(Emptied(slots.ft, noFt), Emptied(slots.np, noNp))
      && result == Done([Reported(slots.ft, ft, noFt), Reported(slots.np, np, noNp)])
  {
    TurnExactly(w, record, env, FT);
    var (w1, ft) := UndoKey(w, record, env, FT);
    TurnExactly(w1, record, env, NP);
    var np := UndoKey(w1, record, env, NP).1;
    assert [ft.outcome] + [np.outcome] == [ft.outcome, np.outcome];
    assert w1.prefix.slots.np == w.prefix.slots.np;
  }

  /** The file was asked first, and shows no key this program knows. */
  ghost predicate StaysAway(slots: PerKey<Slot>, record: Record.Entries, byFile: bool) {
    && byFile
    && !SlotKnown(true, slots.ft, Record.Recorded(record, Name(FT)))
    && !SlotKnown(true, slots.np, Record.Recorded(record, Name(NP)))
  }

  lemma UndoneByFile(w: World, record: Record.Entries, env: UninstallEnv)
    requires ValidPrefix(w.prefix) && FromFile(w.prefix.slots, env.settled)
    requires StaysAway(w.prefix.slots, record, env.settled.Some?)
    ensures UndoKeys(w, record, env)
         == (w, Done([Reported(w.prefix.slots.ft, Record.Recorded(record, Name(FT)), false),
                      Reported(w.prefix.slots.np, Record.Recorded(record, Name(NP)), false)]))
  {
    SettleUnfolds(env.settled.value, record);
    KnownIsOurs(true, w.prefix.slots.ft, Record.Recorded(record, Name(FT)));
    KnownIsOurs(true, w.prefix.slots.np, Record.Recorded(record, Name(NP)));
  }

  lemma FileSendsToWine(w: World, record: Record.Entries, env: UninstallEnv)
    requires ValidPrefix(w.prefix) && FromFile(w.prefix.slots, env.settled)
    requires !StaysAway(w.prefix.slots, record, env.settled.Some?)
    ensures UndoKeys(w, record, env) == BothResults(w, record, env)
  {
    LoopUnfolds(w, record, env);
    if env.settled.Some? {
      EarlyReturn(env.settled.value, record);
      KnownIsOurs(true, w.prefix.slots.ft, Record.Recorded(record, Name(FT)));
      KnownIsOurs(true, w.prefix.slots.np, Record.Recorded(record, Name(NP)));
    }
  }

  /** An uninstall in a prefix wine serves empties exactly the keys whose value
      wine shows it to know, leaves every other as it is, and says so of each;
      but none where it asked the file first and that shows none. */
  lemma UndoneExactly(w: World, record: Record.Entries, env: UninstallEnv)
    requires ValidPrefix(w.prefix) && AllServed(env) && FromFile(w.prefix.slots, env.settled)
    ensures var slots := w.prefix.slots;
      var ft, np := Record.Recorded(record, Name(FT)), Record.Recorded(record, Name(NP));
      var away := StaysAway(slots, record, env.settled.Some?);
      var noFt, noNp := !away && SlotKnown(false, slots.ft, ft), !away && SlotKnown(false, slots.np, np);
      var (w1, result) := UndoKeys(w, record, env);
      && w1.prefix.slots == PerKey(Emptied(slots.ft, noFt), Emptied(slots.np, noNp))
      && result == Done([Reported(slots.ft, ft, noFt), Reported(slots.np, np, noNp)])
  {
    if StaysAway(w.prefix.slots, record, env.settled.Some?) {
      UndoneByFile(w, record, env);
    } else {
      FileSendsToWine(w, record, env);
      LoopExactly(w, record, env);
    }
  }

  /** An install that says it registered the keys left the directory, both keys
      and both lines of the record as it was asked to, whatever was there. */
  lemma RegisteredMeans(w: World, source: NpSource, forced: bool, env: InstallEnv)
    requires ValidPrefix(w.prefix) && DoInstall(w, source, forced, env).1.Registered?
    ensures NpTarget(source).Some? && Registrable(NpTarget(source).value)
    ensures Registrable(INSTALL_WIN_DIR)
    ensures var p, target := DoInstall(w, source, forced, env).0.prefix, NpTarget(source).value;
      && p.dir && p.slots == PerKey(Some(OurValue(INSTALL_WIN_DIR)), Some(OurValue(target)))
      && Record.Recorded(ReadRecord(p, true), Name(FT)) == Some(INSTALL_WIN_DIR)
      && Record.Recorded(ReadRecord(p, true), Name(NP)) == Some(target)
      && (if source.Ours? then p.slots.np == p.slots.ft else SpelledForWine(source.dir, target))
  {
    TargetIsRegistrable(source);
    if source.Installed? {
      RegistrablePathExactly(source.dir, NpTarget(source).value);
    }
    var target := NpTarget(source).value;
    var w1 := w.(prefix := w.prefix.(dir := true));
    assert DoInstall(w, source, forced, env) == RegisterKeys(w1, target, forced, env);
    RegisteredHolds(w1, target, forced, env);
    RegisteredRecords(w1, target, forced, env);
  }

  lemma SameIgnoringCase(v: string, other: string, path: string)
    requires SameButCase(v, other)
    ensures SameButCase(v, path) <==> SameButCase(other, path)
    ensures SameButCase(path, v) <==> SameButCase(path, other)
  {
  }

  /** No decision turns on the case of a letter: not of the value found, nor of
      the one recorded, nor of the one about to be written. */
  lemma DecisionsIgnoreCase(v: string, v2: string, wrote: string, wrote2: string,
                            want: string, want2: string)
    requires SameButCase(v, v2) && SameButCase(wrote, wrote2)
    requires SameButCase(want, want2)
    ensures StopsInstall(Plain(v), Some(wrote), want) == StopsInstall(Plain(v2), Some(wrote2), want2)
    ensures StopsInstall(Plain(v), None, want) == StopsInstall(Plain(v2), None, want2)
    ensures UndoFor(Plain(v), Some(wrote)) == UndoFor(Plain(v2), Some(wrote2))
    ensures UndoFor(Plain(v), None) == UndoFor(Plain(v2), None)
  {
    SameIgnoringCase(v, v2, INSTALL_WIN_DIR);
    SameIgnoringCase(v, v2, wrote);
    SameIgnoringCase(wrote, wrote2, v2);
    SameIgnoringCase(v, v2, want);
    SameIgnoringCase(want, want2, v2);
  }
}
