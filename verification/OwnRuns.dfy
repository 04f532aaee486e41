/** Runs in which no other program touches the keys, every reading is right and
    the record can always be read and written, while any registry write may
    fail. When this program stands in its own way, and what an uninstall that
    says it is done leaves behind: both turn on a control character in the
    client path, which the guard lets through, wine reads and the file's reader
    refuses. */
module OwnRuns {
  import opened Wrappers
  import opened Text
  import opened RegQuery
  import opened UserReg
  import Record
  import opened Bridge
  import opened BridgeRuns

  /** Where the file settles the keys, it says of them what wine wrote there. */
  predicate FromFile(slots: PerKey<Slot>, settled: Option<PerKey<Reading>>) {
    settled.Some? ==> settled.value == PerKey(FileReading(slots.ft), FileReading(slots.np))
  }

  /** A command of this program's own, every reading right; the keys may still
      fail to be written or deleted, and the directory to be removed. */
  predicate Undisturbed(w: World, c: Command) {
    match c
    case Installing(_, _, env) =>
      && env.recordRead && env.recordWritten
      && FromFile(w.prefix.slots, env.settled) && AllSteady(env.queries)
    case Uninstalling(env) =>
      && env.recordRead && FromFile(w.prefix.slots, env.settled)
      && AllSteady(env.queries) && AllSteady(env.rereads)
    case Outside(_) => false
  }

  /** A path this program writes: one wine reads back as it is. */
  predicate Writable(path: string) {
    Registrable(path) && path != "" && !IsWhitespace(path[0])
  }

  predicate Remembered(path: string, recorded: Option<string>) {
    path == INSTALL_WIN_DIR || recorded == Some(path)
  }

  /** The key is empty, or holds what this program wrote there; and knows it
      wrote, unless the file's reader would not read it. */
  predicate OwnSlot(slot: Slot, recorded: Option<string>) {
    slot.Some? ==>
      && Writable(slot.value.text) && slot.value == OurValue(slot.value.text)
      && (Remembered(slot.value.text, recorded) || HasControl(slot.value.text))
  }

  /** The FreeTrack key only ever holds our own directory. */
  predicate Own(slots: PerKey<Slot>, record: Record.Entries) {
    && OwnSlot(slots.ft, Record.Recorded(record, Name(FT)))
    && (slots.ft.Some? ==> slots.ft.value.text == INSTALL_WIN_DIR)
    && OwnSlot(slots.np, Record.Recorded(record, Name(NP)))
  }

  predicate AllOwn(w: World) {
    ValidPrefix(w.prefix) && Own(w.prefix.slots, ReadRecord(w.prefix, true))
  }

  // ----------------------------------------------------------------- reading

  function OwnReading(slot: Slot): Reading {
    if slot.None? then Absent else Plain(slot.value.text)
  }

  lemma OwnDirectoryIsWritable()
    ensures Writable(INSTALL_WIN_DIR)
  {
    OwnDirectoryIsRegistrable();
  }

  /** What this program wrote is read back as what it wrote. */
  lemma OwnIsRead(k: Key, slot: Slot, recorded: Option<string>, read: KeyRead)
    requires ValidSlot(slot) && OwnSlot(slot, recorded) && Steady(read)
    ensures ReadKey(k, slot, read).Success? ==>
      ReadKey(k, slot, read) == Success(OwnReading(slot))
  {
    ReadKeyReads(k, slot, read);
    if slot.Some? {
      var path := slot.value.text;
      LineFeedByte(path);
      assert TrimStart(path) == path;
    }
  }

  /** A path this program wrote is read out of the file as it is unless it holds
      a control character, and then as nothing this program can read. */
  lemma OwnInFile(path: string)
    requires Writable(path)
    ensures FileReading(Some(OurValue(path)))
         == if HasControl(path) then Other(Control) else Plain(path)
  {
    assert OneUnitEach(path);
    if i: nat :| i < |path| && (path[i] == '\n' || path[i] == '\r') {
      assert path[i] in path;
    }
  }

  lemma OwnDirectoryHasNoControl()
    ensures !HasControl(INSTALL_WIN_DIR)
  {
  }

  function ReadingsOf(slots: PerKey<Slot>, byFile: bool): PerKey<Reading> {
    if byFile then PerKey(FileReading(slots.ft), FileReading(slots.np))
    else PerKey(OwnReading(slots.ft), OwnReading(slots.np))
  }

  lemma OwnAreRead(p: Prefix, record: Record.Entries, settled: Option<PerKey<Reading>>,
                   queries: PerKey<KeyRead>)
    requires ValidPrefix(p) && Own(p.slots, record)
    requires FromFile(p.slots, settled) && AllSteady(queries)
    requires Readings(p, settled, queries).Success?
    ensures Readings(p, settled, queries).value == ReadingsOf(p.slots, settled.Some?)
  {
    OwnIsRead(FT, p.slots.ft, Record.Recorded(record, Name(FT)), queries.ft);
    OwnIsRead(NP, p.slots.np, Record.Recorded(record, Name(NP)), queries.np);
  }

  // ---------------------------------------------------------------- decisions

  /** Our own value, which this program takes for a stranger's. */
  predicate Lost(slot: Slot, recorded: Option<string>) {
    slot.Some? && !IsOurs(OwnReading(slot), recorded)
  }

  lemma LostHasControl(slot: Slot, recorded: Option<string>)
    requires OwnSlot(slot, recorded) && Lost(slot, recorded)
    ensures HasControl(slot.value.text)
  {
    EqIgnoreAsciiCaseRefl(slot.value.text);
  }

  lemma OwnDirectoryIsOurs(slot: Slot, recorded: Option<string>, want: string)
    requires slot.Some? ==> slot.value.text == INSTALL_WIN_DIR
    requires OwnSlot(slot, recorded)
    ensures !Lost(slot, recorded) && FileReading(slot) == OwnReading(slot)
    ensures !StopsInstall(OwnReading(slot), recorded, want)
    ensures UndoFor(OwnReading(slot), recorded) == if slot.None? then Nothing else Remove
  {
    EqIgnoreAsciiCaseRefl(INSTALL_WIN_DIR);
    OwnDirectoryIsWritable();
    OwnDirectoryHasNoControl();
    OwnInFile(INSTALL_WIN_DIR);
  }

  /** What stops an install over this program's own client path: read out of the
      file, that the file's reader refuses it; read through wine, that it is
      lost, and not what is about to be written into a key with no record. */
  predicate InOwnWay(slot: Slot, recorded: Option<string>, byFile: bool, want: string) {
    slot.Some? &&
    if byFile then HasControl(slot.value.text)
    else Lost(slot, recorded)
         && !(recorded.None? && SameButCase(slot.value.text, want))
  }

  lemma OwnIsDecided(slot: Slot, recorded: Option<string>, byFile: bool, want: string)
    requires OwnSlot(slot, recorded)
    ensures var reading := if byFile then FileReading(slot) else OwnReading(slot);
      StopsInstall(reading, recorded, want) <==> InOwnWay(slot, recorded, byFile, want)
  {
    if slot.Some? {
      EqIgnoreAsciiCaseRefl(slot.value.text);
      OwnInFile(slot.value.text);
    }
  }

  lemma OwnTaken(slots: PerKey<Slot>, record: Record.Entries, byFile: bool, npTarget: string)
    requires Own(slots, record)
    ensures Taken(ReadingsOf(slots, byFile), record, npTarget)
         == if InOwnWay(slots.np, Record.Recorded(record, Name(NP)), byFile, npTarget)
            then [NP] else []
  {
    var readings := ReadingsOf(slots, byFile);
    OwnDirectoryIsOurs(slots.ft, Record.Recorded(record, Name(FT)), INSTALL_WIN_DIR);
    OwnIsDecided(slots.np, Record.Recorded(record, Name(NP)), byFile, npTarget);
    assert KEYS[0] == FT && KEYS[1] == NP;
    assert TakenAmong(readings, record, npTarget, 0) == [];
    assert TakenAmong(readings, record, npTarget, 1) == [];
  }

  // ----------------------------------------------------------------- install

  /** Over this program's own work an install is refused exactly where its own
      client path is in its way, and then over the TrackIR key alone. */
  lemma OwnRefusal(w: World, source: NpSource, forced: bool, env: InstallEnv)
    requires AllOwn(w) && Undisturbed(w, Installing(source, forced, env))
    ensures DoInstall(w, source, forced, env).1.Refused? <==>
      && !forced && NpTarget(source).Some? && Readings(w.prefix, env.settled, env.queries).Success?
      && InOwnWay(w.prefix.slots.np, Record.Recorded(ReadRecord(w.prefix, true), Name(NP)),
                  env.settled.Some?, NpTarget(source).value)
    ensures DoInstall(w, source, forced, env).1.Refused? ==>
      DoInstall(w, source, forced, env) == (w, Refused([NP]))
  {
    var record := ReadRecord(w.prefix, true);
    RefusedMeansTaken(w, source, forced, env);
    if NpTarget(source).Some? && Readings(w.prefix, env.settled, env.queries).Success? {
      OwnAreRead(w.prefix, record, env.settled, env.queries);
      OwnTaken(w.prefix.slots, record, env.settled.Some?, NpTarget(source).value);
    }
  }

  lemma RefusedMeansTaken(w: World, source: NpSource, forced: bool, env: InstallEnv)
    requires ValidPrefix(w.prefix)
    ensures DoInstall(w, source, forced, env).1.Refused? <==>
      && !forced && NpTarget(source).Some? && Readings(w.prefix, env.settled, env.queries).Success?
      && Taken(Readings(w.prefix, env.settled, env.queries).value,
               ReadRecord(w.prefix, env.recordRead), NpTarget(source).value) != []
    ensures DoInstall(w, source, forced, env).1.Refused? ==>
      DoInstall(w, source, forced, env) == (w, Refused(Taken(
        Readings(w.prefix, env.settled, env.queries).value,
        ReadRecord(w.prefix, env.recordRead), NpTarget(source).value)))
  {
    TargetIsRegistrable(source);
  }

  /** What the record says of both keys once it is merged with what landed. */
  lemma KeptRecords(record: Record.Entries, npTarget: string, writes: PerKey<WineRun>)
    ensures var kept := Kept(record, npTarget, writes);
      && Record.Recorded(kept, Name(FT))
         == (if writes.ft.Served? then Some(INSTALL_WIN_DIR) else Record.Recorded(record, Name(FT)))
      && Record.Recorded(kept, Name(NP))
         == (if writes.np.Served? then Some(npTarget) else Record.Recorded(record, Name(NP)))
  {
    KeptUnfolds(record, npTarget, writes);
    NamesDiffer();
    var one := if writes.ft.Served?
      then Record.Upserted(record, Name(FT), INSTALL_WIN_DIR) else record;
    Record.RecordedUpserted(record, Name(FT), INSTALL_WIN_DIR, Name(FT));
    Record.RecordedUpserted(record, Name(FT), INSTALL_WIN_DIR, Name(NP));
    Record.RecordedUpserted(one, Name(NP), npTarget, Name(FT));
    Record.RecordedUpserted(one, Name(NP), npTarget, Name(NP));
  }

  /** Both keys after the two writes. */
  lemma WrittenSlots(w: World, npTarget: string, forced: bool, writes: PerKey<WineRun>)
    requires Registrable(npTarget)
    ensures Registrable(INSTALL_WIN_DIR)
    ensures WriteKeys(w, npTarget, forced, writes).prefix.slots == PerKey(
      if writes.ft.Served? then Some(OurValue(INSTALL_WIN_DIR)) else w.prefix.slots.ft,
      if !writes.ft.NotStarted? && writes.np.Served? then Some(OurValue(npTarget))
      else w.prefix.slots.np)
  {
    OwnDirectoryIsRegistrable();
  }

  lemma WrittenIsOwn(slot: Slot, recorded: Option<string>, path: string, landed: bool)
    requires OwnSlot(slot, recorded) && Writable(path)
    ensures OwnSlot(if landed then Some(OurValue(path)) else slot,
                    if landed then Some(path) else recorded)
  {
  }

  /** Both keys, against the record merged with what landed in them. */
  lemma MergedIsOwn(w: World, npTarget: string, forced: bool, env: InstallEnv)
    requires AllOwn(w) && Writable(npTarget) && RewritesRecord(env)
    ensures Own(WriteKeys(w, npTarget, forced, env.writes).prefix.slots,
                Kept(ReadRecord(w.prefix, true), npTarget, env.writes))
  {
    var known, writes := ReadRecord(w.prefix, true), env.writes;
    OwnDirectoryIsWritable();
    WrittenSlots(w, npTarget, forced, writes);
    KeptRecords(known, npTarget, writes);
    WrittenIsOwn(w.prefix.slots.ft, Record.Recorded(known, Name(FT)), INSTALL_WIN_DIR,
                 writes.ft.Served?);
    WrittenIsOwn(w.prefix.slots.np, Record.Recorded(known, Name(NP)), npTarget, writes.np.Served?);
  }

  lemma RewrittenKeepsOwn(w: World, npTarget: string, forced: bool, env: InstallEnv)
    requires AllOwn(w) && w.prefix.dir && Writable(npTarget)
    requires env.recordRead && RewritesRecord(env)
    ensures AllOwn(RegisterKeys(w, npTarget, forced, env).0)
  {
    MergedIsOwn(w, npTarget, forced, env);
    WriteKeysKeepsFiles(w, npTarget, forced, env.writes);
    RegisterCases(w, npTarget, forced, env);
    RecordIsNormal(w.prefix, true);
    KeptReadsBack(ReadRecord(w.prefix, true), npTarget, env.writes);
    WrittenIsValid(w, npTarget, forced, env.writes);
  }

  lemma WrittenIsValid(w: World, npTarget: string, forced: bool, writes: PerKey<WineRun>)
    requires Registrable(npTarget) && ValidPrefix(w.prefix)
    ensures ValidPrefix(WriteKeys(w, npTarget, forced, writes).prefix)
  {
    OwnDirectoryIsRegistrable();
    WriteIsValid(w, FT, INSTALL_WIN_DIR, forced, writes.ft);
    WriteIsValid(Write(w, FT, INSTALL_WIN_DIR, forced, writes.ft), NP, npTarget, forced, writes.np);
  }

  lemma WriteIsValid(w: World, k: Key, path: string, forced: bool, run: WineRun)
    requires Registrable(path) && ValidPrefix(w.prefix)
    ensures ValidPrefix(Write(w, k, path, forced, run).prefix)
  {
  }

  /** Nothing landed in the TrackIR key that the record was not told of. */
  lemma UnwrittenKeepsOwn(w: World, npTarget: string, forced: bool, env: InstallEnv)
    requires AllOwn(w) && Writable(npTarget) && env.recordWritten && !RewritesRecord(env)
    ensures AllOwn(RegisterKeys(w, npTarget, forced, env).0)
  {
    OwnDirectoryIsWritable();
    WrittenSlots(w, npTarget, forced, env.writes);
    WriteKeysKeepsFiles(w, npTarget, forced, env.writes);
    RegisterCases(w, npTarget, forced, env);
  }

  lemma RegisterKeepsOwn(w: World, npTarget: string, forced: bool, env: InstallEnv)
    requires AllOwn(w) && w.prefix.dir && Writable(npTarget)
    requires env.recordRead && env.recordWritten
    ensures AllOwn(RegisterKeys(w, npTarget, forced, env).0)
  {
    if RewritesRecord(env) {
      RewrittenKeepsOwn(w, npTarget, forced, env);
    } else {
      UnwrittenKeepsOwn(w, npTarget, forced, env);
    }
  }

  lemma InstallKeepsOwn(w: World, source: NpSource, forced: bool, env: InstallEnv)
    requires AllOwn(w) && env.recordRead && env.recordWritten
    ensures AllOwn(DoInstall(w, source, forced, env).0)
  {
    InstallCases(w, source, forced, env);
    var w1, w2 := w.(prefix := w.prefix.(dir := true)), DoInstall(w, source, forced, env).0;
    assert ReadRecord(w1.prefix, true) == ReadRecord(w.prefix, true);
    if w2 != w && w2 != w1 {
      TargetIsRegistrable(source);
      RegisterKeepsOwn(w1, NpTarget(source).value, forced, env);
    }
  }

  // --------------------------------------------------------------- uninstall

  /** What is left of the key once it was undone without fail. */
  function Leaving(slot: Slot, recorded: Option<string>): Slot {
    if Lost(slot, recorded) then slot else None
  }

  predicate TurnedFrom(w: World, k: Key, recorded: Option<string>, w1: World, turn: UndoTurn) {
    var slot := w.prefix.slots.At(k);
    && (w1 == w || (w1 == Delete(w, k, Served) && !Lost(slot, recorded)))
    && (turn.Did? && turn.outcome != Failed ==>
          w1.prefix.slots.At(k) == Leaving(slot, recorded))
  }

  lemma UndoOnOwnSlot(w: World, recorded: Option<string>, k: Key, run: WineRun, reread: KeyRead)
    requires ValidPrefix(w.prefix) && OwnSlot(w.prefix.slots.At(k), recorded) && Steady(reread)
    ensures var verdict := UndoFor(OwnReading(w.prefix.slots.At(k)), recorded);
      var (w1, turn) := UndoOn(w, verdict, k, run, reread);
      TurnedFrom(w, k, recorded, w1, turn)
  {
    OwnGoneIsGone(w, recorded, k, run, reread);
  }

  /** One key is undone, or said not to be. */
  lemma UndoKeyOnOwn(w: World, record: Record.Entries, env: UninstallEnv, k: Key)
    requires ValidPrefix(w.prefix) && OwnSlot(w.prefix.slots.At(k), Record.Recorded(record, Name(k)))
    requires Steady(env.queries.At(k)) && Steady(env.rereads.At(k))
    ensures var (w1, turn) := UndoKey(w, record, env, k);
      TurnedFrom(w, k, Record.Recorded(record, Name(k)), w1, turn)
  {
    var recorded := Record.Recorded(record, Name(k));
    OwnIsRead(k, w.prefix.slots.At(k), recorded, env.queries.At(k));
    UndoOnOwnSlot(w, recorded, k, env.deletes.At(k), env.rereads.At(k));
  }

  /** A delete that says the value is gone is right. */
  lemma OwnGoneIsGone(w: World, recorded: Option<string>, k: Key, run: WineRun, reread: KeyRead)
    requires ValidPrefix(w.prefix) && OwnSlot(w.prefix.slots.At(k), recorded) && Steady(reread)
    ensures Delete(w, k, run) == w || Delete(w, k, run) == Delete(w, k, Served)
    ensures DeleteResult(w, k, run, reread) == Some(true) ==>
      Delete(w, k, run).prefix.slots.At(k).None?
  {
    OwnIsRead(k, w.prefix.slots.At(k), recorded, reread);
  }

  lemma DeleteKeepsOwn(w: World, record: Record.Entries, k: Key)
    requires ValidPrefix(w.prefix) && Own(w.prefix.slots, record)
    ensures var p := Delete(w, k, Served).prefix;
      && ValidPrefix(p) && Own(p.slots, record) && p.dir == w.prefix.dir
      && p.record == w.prefix.record
      && (forall other: Key :: other != k ==> p.slots.At(other) == w.prefix.slots.At(other))
  {
  }

  /** What holds of the world `w1` that `uninstall` has come to from `w`. */
  predicate UndoneFrom(w: World, w1: World, record: Record.Entries) {
    && ValidPrefix(w1.prefix) && Own(w1.prefix.slots, record)
    && w1.prefix.dir == w.prefix.dir && w1.prefix.record == w.prefix.record
  }

  lemma FirstUndone(w: World, record: Record.Entries, env: UninstallEnv)
    requires ValidPrefix(w.prefix) && Own(w.prefix.slots, record)
    requires AllSteady(env.queries) && AllSteady(env.rereads)
    ensures var (w1, ft) := UndoKey(w, record, env, FT);
      && UndoneFrom(w, w1, record) && w1.prefix.slots.np == w.prefix.slots.np
      && (ft.Did? && ft.outcome != Failed ==> w1.prefix.slots.ft.None?)
  {
    UndoKeyOnOwn(w, record, env, FT);
    DeleteKeepsOwn(w, record, FT);
    OwnDirectoryIsOurs(w.prefix.slots.ft, Record.Recorded(record, Name(FT)), "");
    assert w.prefix.slots.At(NP) == w.prefix.slots.np;
  }

  lemma SecondUndone(w: World, record: Record.Entries, env: UninstallEnv)
    requires ValidPrefix(w.prefix) && Own(w.prefix.slots, record)
    requires AllSteady(env.queries) && AllSteady(env.rereads)
    ensures var (w1, np) := UndoKey(w, record, env, NP);
      && UndoneFrom(w, w1, record) && w1.prefix.slots.ft == w.prefix.slots.ft
      && (np.Did? && np.outcome != Failed ==>
            w1.prefix.slots.np == Leaving(w.prefix.slots.np, Record.Recorded(record, Name(NP))))
  {
    UndoKeyOnOwn(w, record, env, NP);
    DeleteKeepsOwn(w, record, NP);
    assert w.prefix.slots.At(FT) == w.prefix.slots.ft;
  }

  lemma UndoOnOwn(w: World, record: Record.Entries, env: UninstallEnv)
    requires ValidPrefix(w.prefix) && Own(w.prefix.slots, record)
    requires AllSteady(env.queries) && AllSteady(env.rereads)
    ensures var (w1, result) := UndoFrom(w, record, env, 0, []);
      && UndoneFrom(w, w1, record)
      && (result.Done? && Failed !in result.outcomes ==>
            w1.prefix.slots
            == PerKey(None, Leaving(w.prefix.slots.np, Record.Recorded(record, Name(NP)))))
  {
    LoopUnfolds(w, record, env);
    FirstUndone(w, record, env);
    var (w1, ft) := UndoKey(w, record, env, FT);
    if ft.Did? {
      SecondUndone(w1, record, env);
      var (w2, np) := UndoKey(w1, record, env, NP);
      if np.Did? {
        BothOutcomes(ft.outcome, np.outcome);
      }
    }
  }

  lemma BothOutcomes(a: Outcome, b: Outcome)
    ensures Failed in [a] + [b] <==> a == Failed || b == Failed
  {
    assert ([a] + [b])[0] == a && ([a] + [b])[1] == b;
  }

  function Untouched(undo: Undo): Outcome
    requires undo != Remove
  {
    if undo == Nothing then NothingThere else Left(undo.recorded)
  }

  lemma SettleUnfolds(readings: PerKey<Reading>, record: Record.Entries)
    ensures var ft := UndoFor(readings.ft, Record.Recorded(record, Name(FT)));
      var np := UndoFor(readings.np, Record.Recorded(record, Name(NP)));
      Settle(readings, record, |KEYS|)
      == if ft == Remove || np == Remove then None
         else Some([Untouched(ft), Untouched(np)])
  {
    assert KEYS[0] == FT && KEYS[1] == NP;
    var ft := UndoFor(readings.ft, Record.Recorded(record, Name(FT)));
    var np := UndoFor(readings.np, Record.Recorded(record, Name(NP)));
    assert Settle(readings, record, 0) == Some([]);
    SettleOne(readings, record, 1);
    SettleOne(readings, record, 2);
    if ft != Remove && np != Remove {
      assert [] + [Untouched(ft)] + [Untouched(np)] == [Untouched(ft), Untouched(np)];
    }
  }

  lemma SettleOne(readings: PerKey<Reading>, record: Record.Entries, n: nat)
    requires 0 < n <= |KEYS|
    ensures var undo := UndoFor(readings.At(KEYS[n - 1]), Record.Recorded(record, Name(KEYS[n - 1])));
      var before := Settle(readings, record, n - 1);
      Settle(readings, record, n)
      == if before.None? || undo == Remove then None else Some(before.value + [Untouched(undo)])
  {
  }

  lemma OwnUndoneByFile(slot: Slot, recorded: Option<string>)
    requires OwnSlot(slot, recorded)
    ensures UndoFor(FileReading(slot), recorded)
         == if slot.None? then Nothing
            else if HasControl(slot.value.text) then Leave(recorded.Some?) else Remove
  {
    if slot.Some? {
      EqIgnoreAsciiCaseRefl(slot.value.text);
      OwnInFile(slot.value.text);
    }
  }

  /** The file shows nothing of ours exactly when the FreeTrack key is empty and
      the TrackIR key is too, or holds what the file's reader refuses. */
  lemma OwnSettles(slots: PerKey<Slot>, record: Record.Entries)
    requires Own(slots, record)
    ensures var settled := Settle(ReadingsOf(slots, true), record, |KEYS|);
      && (settled.Some? <==>
            slots.ft.None? && (slots.np.Some? ==> HasControl(slots.np.value.text)))
      && (settled.Some? ==> Failed !in settled.value)
  {
    SettleUnfolds(ReadingsOf(slots, true), record);
    OwnUndoneByFile(slots.ft, Record.Recorded(record, Name(FT)));
    OwnUndoneByFile(slots.np, Record.Recorded(record, Name(NP)));
    OwnDirectoryHasNoControl();
  }

  /** What an uninstall that succeeds leaves in the TrackIR key: a value lost, or
      one the file's reader refuses where nothing else made it ask wine. */
  predicate LeavesBehind(slots: PerKey<Slot>, recorded: Option<string>, byFile: bool) {
    slots.np.Some?
    && (Lost(slots.np, recorded)
        || (byFile && slots.ft.None? && HasControl(slots.np.value.text)))
  }

  lemma UndoKeysOnOwn(w: World, env: UninstallEnv)
    requires AllOwn(w) && Undisturbed(w, Uninstalling(env))
    ensures var record := ReadRecord(w.prefix, true);
      var (w1, result) := UndoKeys(w, record, env);
      && UndoneFrom(w, w1, record)
      && (result.Done? && Failed !in result.outcomes ==>
            w1.prefix.slots == PerKey(None,
              if LeavesBehind(w.prefix.slots, Record.Recorded(record, Name(NP)), env.settled.Some?)
              then w.prefix.slots.np else None))
  {
    var record := ReadRecord(w.prefix, true);
    UndoOnOwn(w, record, env);
    if env.settled.Some? {
      OwnSettles(w.prefix.slots, record);
    }
  }

  /** Nothing of ours is in the prefix, but perhaps a value in the TrackIR key. */
  predicate CleanBut(p: Prefix, np: Slot) {
    p == Prefix(PerKey(None, np), false, None)
  }

  lemma LeftHasControl(slots: PerKey<Slot>, record: Record.Entries, byFile: bool)
    requires Own(slots, record)
    requires LeavesBehind(slots, Record.Recorded(record, Name(NP)), byFile)
    ensures HasControl(slots.np.value.text)
  {
    if Lost(slots.np, Record.Recorded(record, Name(NP))) {
      LostHasControl(slots.np, Record.Recorded(record, Name(NP)));
    }
  }

  lemma UninstallOnOwn(w: World, env: UninstallEnv)
    requires AllOwn(w) && Undisturbed(w, Uninstalling(env))
    ensures var (w1, outcome) := DoUninstall(w, env);
      && AllOwn(w1)
      && (outcome.Uninstalled? ==> CleanBut(w1.prefix,
            if LeavesBehind(w.prefix.slots, Record.Recorded(ReadRecord(w.prefix, true), Name(NP)),
                            env.settled.Some?)
            then w.prefix.slots.np else None))
  {
    var record := ReadRecord(w.prefix, true);
    UndoKeysOnOwn(w, env);
    var (w1, result) := UndoKeys(w, record, env);
    assert ReadRecord(w1.prefix, true) == record;
    if LeavesBehind(w.prefix.slots, Record.Recorded(record, Name(NP)), env.settled.Some?) {
      LeftHasControl(w.prefix.slots, record, env.settled.Some?);
    }
  }

  // -------------------------------------------------------------- whole runs

  ghost predicate IsOwnRun(states: seq<World>, commands: seq<Command>) {
    && |states| == |commands| + 1
    && ValidPrefix(states[0].prefix) && states[0].prefix.slots == PerKey(None, None)
    && forall i {:trigger commands[i]} :: 0 <= i < |commands| ==>
         && ValidPrefix(states[i].prefix)
         && Undisturbed(states[i], commands[i])
         && states[i + 1] == Apply(states[i], commands[i])
  }

  lemma ApplyKeepsOwn(w: World, c: Command)
    requires AllOwn(w) && Undisturbed(w, c)
    ensures AllOwn(Apply(w, c))
  {
    match c {
      case Installing(source, forced, env) => InstallKeepsOwn(w, source, forced, env);
      case Uninstalling(env) => UninstallOnOwn(w, env);
    }
  }

  lemma {:induction false} OwnRunsStayOwn(states: seq<World>, commands: seq<Command>, n: nat)
    requires IsOwnRun(states, commands) && n < |states|
    ensures AllOwn(states[n])
  {
    if n > 0 {
      OwnRunsStayOwn(states, commands, n - 1);
      ApplyKeepsOwn(states[n - 1], commands[n - 1]);
      assert states[n] == Apply(states[n - 1], commands[n - 1]);
    }
  }

  function RecordedClient(w: World): Option<string> {
    Record.Recorded(ReadRecord(w.prefix, true), Name(NP))
  }

  /** Whatever this program did before, with whatever writes failing, an install
      is refused over what it left in the keys if and only if it is unforced and
      its own client path is in its way. */
  lemma RefusedOverOwnExactly(states: seq<World>, commands: seq<Command>, n: nat)
    requires IsOwnRun(states, commands) && n < |commands| && commands[n].Installing?
    ensures var w, c := states[n], commands[n];
      DoInstall(w, c.source, c.forced, c.env).1.Refused? <==>
        && !c.forced && NpTarget(c.source).Some?
        && Readings(w.prefix, c.env.settled, c.env.queries).Success?
        && InOwnWay(w.prefix.slots.np, RecordedClient(w), c.env.settled.Some?,
                    NpTarget(c.source).value)
  {
    OwnRunsStayOwn(states, commands, n);
    OwnRefusal(states[n], commands[n].source, commands[n].forced, commands[n].env);
  }

  /** Whatever this program did before, an uninstall that succeeds leaves neither
      the FreeTrack key, nor the record, nor the directory; and the TrackIR key
      it leaves if and only if the value there is lost, or refused by the file's
      reader with nothing else to make it ask wine. */
  lemma UninstallLeavesExactly(states: seq<World>, commands: seq<Command>, n: nat)
    requires IsOwnRun(states, commands) && n < |commands| && commands[n].Uninstalling?
    requires DoUninstall(states[n], commands[n].uenv).1.Uninstalled?
    ensures CleanBut(states[n + 1].prefix,
      if LeavesBehind(states[n].prefix.slots, RecordedClient(states[n]),
                      commands[n].uenv.settled.Some?)
      then states[n].prefix.slots.np else None)
  {
    OwnRunsStayOwn(states, commands, n);
    UninstallOnOwn(states[n], commands[n].uenv);
    assert states[n + 1] == Apply(states[n], commands[n]);
  }

  // ------------------------------------- runs with no control character in them

  /** The client such an install registers, if it registers one, is spelled
      without a control character. */
  predicate PlainClient(c: Command) {
    c.Installing? && NpTarget(c.source).Some? ==> !HasControl(NpTarget(c.source).value)
  }

  lemma ClientAfterInstall(w: World, source: NpSource, forced: bool, env: InstallEnv)
    requires ValidPrefix(w.prefix)
    ensures var np := DoInstall(w, source, forced, env).0.prefix.slots.np;
      np == w.prefix.slots.np
      || (NpTarget(source).Some? && np.Some? && np.value.text == NpTarget(source).value)
  {
    InstallCases(w, source, forced, env);
    var w1, w2 := w.(prefix := w.prefix.(dir := true)), DoInstall(w, source, forced, env).0;
    if w2 != w && w2 != w1 {
      WrittenSlots(w1, NpTarget(source).value, forced, env.writes);
      RegisterCases(w1, NpTarget(source).value, forced, env);
    }
  }

  lemma ClientAfterDelete(w: World, verdict: Undo, k: Key, run: WineRun, reread: KeyRead)
    requires ValidPrefix(w.prefix)
    ensures var np := UndoOn(w, verdict, k, run, reread).0.prefix.slots.np;
      np == w.prefix.slots.np || np.None?
  {
  }

  lemma ClientAfterTurn(w: World, record: Record.Entries, env: UninstallEnv, k: Key)
    requires ValidPrefix(w.prefix)
    ensures var np := UndoKey(w, record, env, k).0.prefix.slots.np;
      np == w.prefix.slots.np || np.None?
  {
    var read := ReadKey(k, w.prefix.slots.At(k), env.queries.At(k));
    if read.Success? {
      ClientAfterDelete(w, UndoFor(read.value, Record.Recorded(record, Name(k))), k,
                        env.deletes.At(k), env.rereads.At(k));
    }
  }

  lemma ClientAfterUndo(w: World, record: Record.Entries, env: UninstallEnv)
    requires ValidPrefix(w.prefix)
    ensures var np := UndoKeys(w, record, env).0.prefix.slots.np;
      np == w.prefix.slots.np || np.None?
  {
    LoopWorld(w, record, env);
    ClientAfterTurn(w, record, env, FT);
    ClientAfterTurn(UndoKey(w, record, env, FT).0, record, env, NP);
  }

  lemma ClientAfterUninstall(w: World, env: UninstallEnv)
    requires ValidPrefix(w.prefix)
    ensures var np := DoUninstall(w, env).0.prefix.slots.np; np == w.prefix.slots.np || np.None?
  {
    ClientAfterUndo(w, ReadRecord(w.prefix, env.recordRead), env);
  }

  lemma {:induction false} PlainClientsStay(states: seq<World>, commands: seq<Command>, n: nat)
    requires IsOwnRun(states, commands) && n < |states|
    requires forall i :: 0 <= i < n ==> PlainClient(commands[i])
    ensures states[n].prefix.slots.np.Some? ==> !HasControl(states[n].prefix.slots.np.value.text)
  {
    if n > 0 {
      PlainClientsStay(states, commands, n - 1);
      var w, c := states[n - 1], commands[n - 1];
      assert states[n] == Apply(w, c) && PlainClient(c);
      match c {
        case Installing(source, forced, env) => ClientAfterInstall(w, source, forced, env);
        case Uninstalling(env) => ClientAfterUninstall(w, env);
      }
    }
  }

  /** As long as no client path with a control character was registered, this
      program is never in its own way and an uninstall that succeeds leaves
      nothing at all. */
  lemma PlainRuns(states: seq<World>, commands: seq<Command>, n: nat)
    requires IsOwnRun(states, commands) && n < |commands|
    requires forall i :: 0 <= i < n ==> PlainClient(commands[i])
    ensures commands[n].Installing? ==>
      !DoInstall(states[n], commands[n].source, commands[n].forced, commands[n].env).1.Refused?
    ensures commands[n].Uninstalling? && DoUninstall(states[n], commands[n].uenv).1.Uninstalled? ==>
      CleanBut(states[n + 1].prefix, None)
  {
    OwnRunsStayOwn(states, commands, n);
    PlainClientsStay(states, commands, n);
    var slots, recorded := states[n].prefix.slots, RecordedClient(states[n]);
    if Lost(slots.np, recorded) {
      LostHasControl(slots.np, recorded);
    }
    if commands[n].Installing? {
      RefusedOverOwnExactly(states, commands, n);
    } else if DoUninstall(states[n], commands[n].uenv).1.Uninstalled? {
      UninstallLeavesExactly(states, commands, n);
    }
  }

  // ------------------------------------------------- one install, one uninstall

  lemma RegisteredHolds(w: World, npTarget: string, forced: bool, env: InstallEnv)
    requires Registrable(npTarget) && RegisterKeys(w, npTarget, forced, env).1.Registered?
    ensures Registrable(INSTALL_WIN_DIR)
    ensures RegisterKeys(w, npTarget, forced, env).0.prefix.slots
         == PerKey(Some(OurValue(INSTALL_WIN_DIR)), Some(OurValue(npTarget)))
  {
    OwnDirectoryIsRegistrable();
  }

  lemma RegisteredRecords(w: World, npTarget: string, forced: bool, env: InstallEnv)
    requires Registrable(npTarget) && npTarget != ""
    requires RegisterKeys(w, npTarget, forced, env).1.Registered?
    ensures var p := RegisterKeys(w, npTarget, forced, env).0.prefix;
      && p.dir == w.prefix.dir
      && Record.Recorded(ReadRecord(p, true), Name(FT)) == Some(INSTALL_WIN_DIR)
      && Record.Recorded(ReadRecord(p, true), Name(NP)) == Some(npTarget)
  {
    var known := ReadRecord(w.prefix, env.recordRead);
    RegisterCases(w, npTarget, forced, env);
    WriteKeysKeepsFiles(w, npTarget, forced, env.writes);
    RecordIsNormal(w.prefix, env.recordRead);
    KeptReadsBack(known, npTarget, env.writes);
    KeptRecords(known, npTarget, env.writes);
  }

  lemma RegisteredState(w: World, source: NpSource, forced: bool, env: InstallEnv)
    requires ValidPrefix(w.prefix) && DoInstall(w, source, forced, env).1.Registered?
    ensures NpTarget(source).Some? && Registrable(NpTarget(source).value)
    ensures Registrable(INSTALL_WIN_DIR)
    ensures var w1, target := DoInstall(w, source, forced, env).0, NpTarget(source).value;
      && w1.prefix.slots == PerKey(Some(OurValue(INSTALL_WIN_DIR)), Some(OurValue(target)))
      && RecordedClient(w1) == Some(target)
  {
    TargetIsRegistrable(source);
    var w1 := w.(prefix := w.prefix.(dir := true));
    RegisteredHolds(w1, NpTarget(source).value, forced, env);
    RegisteredRecords(w1, NpTarget(source).value, forced, env);
  }

  /** From absent keys, an install that says it registered the keys has, whatever
      client it was pointed at, and the uninstall after it puts all of it back. */
  lemma InstallThenUninstall(w: World, source: NpSource, forced: bool, env: InstallEnv,
                             uenv: UninstallEnv)
    requires ValidPrefix(w.prefix) && w.prefix.slots == PerKey(None, None)
    requires Undisturbed(w, Installing(source, forced, env))
    requires DoInstall(w, source, forced, env).1.Registered?
    requires Undisturbed(DoInstall(w, source, forced, env).0, Uninstalling(uenv))
    ensures var w1 := DoInstall(w, source, forced, env).0;
      && Registrable(INSTALL_WIN_DIR) && NpTarget(source).Some? && Registrable(NpTarget(source).value)
      && w1.prefix.slots
         == PerKey(Some(OurValue(INSTALL_WIN_DIR)), Some(OurValue(NpTarget(source).value)))
      && ValidPrefix(w1.prefix)
      && (DoUninstall(w1, uenv).1.Uninstalled? ==> CleanBut(DoUninstall(w1, uenv).0.prefix, None))
      && (AllServed(uenv) ==> DoUninstall(w1, uenv).1.Uninstalled?)
  {
    InstallKeepsOwn(w, source, forced, env);
    RegisteredState(w, source, forced, env);
    EqIgnoreAsciiCaseRefl(NpTarget(source).value);
    var w1 := DoInstall(w, source, forced, env).0;
    UninstallOnOwn(w1, uenv);
    if AllServed(uenv) {
      ServedUninstallSucceeds(w1, uenv);
    }
  }

  /** Nothing is in the way of an uninstall. */
  predicate AllServed(env: UninstallEnv) {
    && env.queries.ft.query.Served? && env.queries.np.query.Served?
    && env.queries.ft.probe.Served? && env.queries.np.probe.Served?
    && env.deletes.ft.Served? && env.deletes.np.Served? && env.removal.All?
  }

  lemma ServedSucceeds(w: World, verdict: Undo, k: Key, reread: KeyRead)
    requires ValidPrefix(w.prefix)
    ensures var turn := UndoOn(w, verdict, k, Served, reread).1; turn.Did? && turn.outcome != Failed
  {
  }

  lemma ServedTurnSucceeds(w: World, record: Record.Entries, env: UninstallEnv, k: Key)
    requires ValidPrefix(w.prefix) && AllServed(env)
    ensures var turn := UndoKey(w, record, env, k).1; turn.Did? && turn.outcome != Failed
  {
    var slot := w.prefix.slots.At(k);
    ReadKeyReads(k, slot, env.queries.At(k));
    var current := ReadKey(k, slot, env.queries.At(k)).value;
    ServedSucceeds(w, UndoFor(current, Record.Recorded(record, Name(k))), k, env.rereads.At(k));
  }

  lemma ServedUninstallSucceeds(w: World, env: UninstallEnv)
    requires AllOwn(w) && Undisturbed(w, Uninstalling(env)) && AllServed(env)
    ensures DoUninstall(w, env).1.Uninstalled?
  {
    var record := ReadRecord(w.prefix, true);
    LoopUnfolds(w, record, env);
    ServedTurnSucceeds(w, record, env, FT);
    var (w1, ft) := UndoKey(w, record, env, FT);
    ServedTurnSucceeds(w1, record, env, NP);
    BothOutcomes(ft.outcome, UndoKey(w1, record, env, NP).1.outcome);
    if env.settled.Some? {
      OwnSettles(w.prefix.slots, record);
    }
  }

  // ------------------------------------------------- at a control character

  /** A directory name may hold a tab; the guard lets it through. */
  lemma TabIsAccepted(dir: string)
    requires dir == ['/', 'a', '\t', 'b']
    ensures RegistrablePath(dir) == Some(WinePath(dir)) && HasControl(WinePath(dir))
  {
    var path := WinePath(dir);
    assert path == ['Z', ':', '\\', 'a', '\t', 'b'];
    assert IsControl(path[4]);
  }

  /** A client in such a directory: the install that registers it has no write
      fail, and the next unforced one, of whatever client, is refused over it as
      soon as it is the file that is read. */
  lemma InOwnWayAtControl(w: World, dir: string, forced: bool, env: InstallEnv,
                          source: NpSource, env2: InstallEnv)
    requires ValidPrefix(w.prefix) && w.prefix.slots == PerKey(None, None)
    requires HasControl(WinePath(dir)) && Undisturbed(w, Installing(Installed(dir), forced, env))
    requires DoInstall(w, Installed(dir), forced, env).1.Registered?
    requires Undisturbed(DoInstall(w, Installed(dir), forced, env).0, Installing(source, false, env2))
    requires env2.settled.Some? && NpTarget(source).Some?
    ensures var w1 := DoInstall(w, Installed(dir), forced, env).0;
      ValidPrefix(w1.prefix) && DoInstall(w1, source, false, env2) == (w1, Refused([NP]))
  {
    InstallKeepsOwn(w, Installed(dir), forced, env);
    RegisteredState(w, Installed(dir), forced, env);
    OwnRefusal(DoInstall(w, Installed(dir), forced, env).0, source, false, env2);
  }

  lemma OnlyClientWritten(w: World, dir: string, forced: bool, env: InstallEnv)
    requires ValidPrefix(w.prefix) && w.prefix.slots == PerKey(None, None)
    requires DoInstall(w, Installed(dir), forced, env).1.KeysNotWritten?
    requires env.writes == PerKey(NotServed, Served)
    ensures Registrable(WinePath(dir))
    ensures DoInstall(w, Installed(dir), forced, env).0.prefix.slots
         == PerKey(None, Some(OurValue(WinePath(dir))))
  {
    TargetIsRegistrable(Installed(dir));
    var w1 := w.(prefix := w.prefix.(dir := true));
    WrittenSlots(w1, WinePath(dir), forced, env.writes);
    RegisterCases(w1, WinePath(dir), forced, env);
  }

  /** Where the FreeTrack key could not be written, the uninstall after it reads
      the file alone, says it is done, and leaves the client's value behind with
      nothing to know it by. */
  lemma LeftBehindAtControl(w: World, dir: string, forced: bool, env: InstallEnv,
                            uenv: UninstallEnv)
    requires ValidPrefix(w.prefix) && w.prefix.slots == PerKey(None, None)
    requires HasControl(WinePath(dir)) && Undisturbed(w, Installing(Installed(dir), forced, env))
    requires env.writes == PerKey(NotServed, Served)
    requires DoInstall(w, Installed(dir), forced, env).1.KeysNotWritten?
    requires Undisturbed(DoInstall(w, Installed(dir), forced, env).0, Uninstalling(uenv))
    requires uenv.settled.Some? && uenv.removal.All?
    ensures Registrable(WinePath(dir))
    ensures var w1 := DoInstall(w, Installed(dir), forced, env).0;
      && ValidPrefix(w1.prefix) && DoUninstall(w1, uenv).1.Uninstalled?
      && CleanBut(DoUninstall(w1, uenv).0.prefix, Some(OurValue(WinePath(dir))))
  {
    InstallKeepsOwn(w, Installed(dir), forced, env);
    OnlyClientWritten(w, dir, forced, env);
    var w1 := DoInstall(w, Installed(dir), forced, env).0;
    OwnSettles(w1.prefix.slots, ReadRecord(w1.prefix, true));
    UninstallOnOwn(w1, uenv);
  }

  // ------------------------------------------------------ a record not written

  lemma UnrecordedWorld(w: World, npTarget: string, forced: bool, env: InstallEnv)
    requires Registrable(npTarget) && RegisterKeys(w, npTarget, forced, env).1.NotRecorded?
    requires env.writes.np.Served?
    ensures var w1 := RegisterKeys(w, npTarget, forced, env).0;
      w1.prefix.record == w.prefix.record && w1.prefix.slots.np == Some(OurValue(npTarget))
  {
  }

  lemma UnrecordedInstall(w: World, dir: string, forced: bool, env: InstallEnv)
    requires ValidPrefix(w.prefix) && w.prefix.slots == PerKey(None, None)
    requires w.prefix.record == None
    requires DoInstall(w, Installed(dir), forced, env).1.NotRecorded? && env.writes.np.Served?
    ensures Writable(WinePath(dir)) && Registrable(INSTALL_WIN_DIR)
    ensures var p := DoInstall(w, Installed(dir), forced, env).0.prefix;
      && ReadRecord(p, true) == [] && p.slots.np == Some(OurValue(WinePath(dir)))
      && p.slots.ft in {None, Some(OurValue(INSTALL_WIN_DIR))}
  {
    var w1 := w.(prefix := w.prefix.(dir := true));
    TargetIsRegistrable(Installed(dir));
    WrittenSlots(w1, WinePath(dir), forced, env.writes);
    UnrecordedWorld(w1, WinePath(dir), forced, env);
    RegisterCases(w1, WinePath(dir), forced, env);
    assert Record.Parsed("") == [];
  }

  /** The record's is the one write whose failure alone does this, for any path:
      after it the client path in the TrackIR key is a stranger's to this
      program, and the next install is refused exactly when it would write
      another path, or reads the file and finds what the file's reader refuses. */
  lemma UnrecordedPathIsRefused(w: World, dir: string, forced: bool, env: InstallEnv,
                                source: NpSource, env2: InstallEnv)
    requires ValidPrefix(w.prefix) && w.prefix.slots == PerKey(None, None)
    requires w.prefix.record == None
    requires DoInstall(w, Installed(dir), forced, env).1.NotRecorded? && env.writes.np.Served?
    requires var w1 := DoInstall(w, Installed(dir), forced, env).0;
      && ValidPrefix(w1.prefix) && Undisturbed(w1, Installing(source, false, env2))
      && Readings(w1.prefix, env2.settled, env2.queries).Success?
    requires NpTarget(source).Some?
    ensures DoInstall(DoInstall(w, Installed(dir), forced, env).0, source, false, env2).1.Refused?
       <==> || !SameButCase(WinePath(dir), NpTarget(source).value)
            || (env2.settled.Some? && HasControl(WinePath(dir)))
  {
    var path, want := WinePath(dir), NpTarget(source).value;
    var w1 := DoInstall(w, Installed(dir), forced, env).0;
    UnrecordedInstall(w, dir, forced, env);
    OwnDirectoryIsWritable();
    // Read with a record that names the path, both keys read as what they hold.
    OwnAreRead(w1.prefix, [Record.Entry(Name(NP), path)], env2.settled, env2.queries);
    RefusedMeansTaken(w1, source, false, env2);
    UnrecordedIsTaken(w1.prefix.slots, path, env2.settled.Some?, want);
  }

  lemma UnrecordedIsTaken(slots: PerKey<Slot>, path: string, byFile: bool, want: string)
    requires Writable(path) && path[0] == 'Z' && slots.np == Some(OurValue(path))
    requires slots.ft.None? || (Registrable(INSTALL_WIN_DIR) && slots.ft == Some(OurValue(INSTALL_WIN_DIR)))
    ensures Taken(ReadingsOf(slots, byFile), [], want) == []
       <==> EqIgnoreAsciiCase(path, want) && !(byFile && HasControl(path))
  {
    var readings := ReadingsOf(slots, byFile);
    TakenNone(readings, [], want);
    OwnDirectoryIsWritable();
    OwnDirectoryIsOurs(slots.ft, None, INSTALL_WIN_DIR);
    OwnInFile(path);
    assert INSTALL_WIN_DIR[0] == 'C';
    assert StopsInstall(readings.At(NP), None, WantFor(NP, want)) <==>
           !EqIgnoreAsciiCase(path, want) || (byFile && HasControl(path));
    assert !StopsInstall(readings.At(FT), None, WantFor(FT, want));
  }
}
