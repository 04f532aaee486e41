/** What `install` and `uninstall` leave behind, outcome by outcome, whatever the
    prefix held and whichever read, write, copy or removal failed. */
module Outcomes {
  import opened Wrappers
  import opened Text
  import opened RegQuery
  import Record
  import opened Bridge
  import opened BridgeRuns
  import opened OwnRuns

  /** A path that is our directory or the one recorded, letters' case apart. */
  predicate OurPath(reading: Reading, wrote: Option<string>) {
    && reading.Plain?
    && (|| SameButCase(reading.path, INSTALL_WIN_DIR)
        || (wrote.Some? && SameButCase(reading.path, wrote.value)))
  }

  /** What the commands know a key by: what the last line of the record about it
      says, where there is a record and it can be read. */
  lemma RecordSaysExactly(p: Prefix, readable: bool, k: Key, wrote: string)
    ensures Record.Recorded(ReadRecord(p, readable), Name(k)) == Some(wrote)
       <==> && readable && p.record.Some?
            && Record.SaysAtLast(Lines(p.record.value), if k == FT then "ft" else "np", wrote)
  {
    Record.ParsedSaysExactly(if p.record.Some? then p.record.value else "", Name(k), wrote);
    assert Record.Parsed("") == [];
  }

  // --------------------------------------------------------------- uninstall

  /** The directory and the record go last, and only where the command says that
      it came to them. */
  lemma DirectoryGoesLast(w: World, env: UninstallEnv)
    requires ValidPrefix(w.prefix)
    ensures var (w1, outcome) := DoUninstall(w, env);
      match outcome
      case Uninstalled => !w1.prefix.dir && w1.prefix.record == None
      case NotRemoved => w.prefix.dir && w1.prefix.dir && w1.prefix.record in {w.prefix.record, None}
      case _ => w1.prefix.dir == w.prefix.dir && w1.prefix.record == w.prefix.record
    ensures DoUninstall(w, env).1 in {Uninstalled, NotRemoved}
       <==> var result := UndoKeys(w, ReadRecord(w.prefix, env.recordRead), env).1;
            result.Done? && Failed !in result.outcomes
  {
    UndoKeepsFiles(w, ReadRecord(w.prefix, env.recordRead), env);
  }

  lemma TurnKeepsFiles(w: World, record: Record.Entries, env: UninstallEnv, k: Key)
    requires ValidPrefix(w.prefix)
    ensures var p := UndoKey(w, record, env, k).0.prefix;
      p.dir == w.prefix.dir && p.record == w.prefix.record
  {
    var read := ReadKey(k, w.prefix.slots.At(k), env.queries.At(k));
    if read.Success? {
      ActKeepsFiles(w, UndoFor(read.value, Record.Recorded(record, Name(k))), k, env.deletes.At(k),
                    env.rereads.At(k));
    }
  }

  lemma ActKeepsFiles(w: World, verdict: Undo, k: Key, run: WineRun, reread: KeyRead)
    requires ValidPrefix(w.prefix)
    ensures var p := UndoOn(w, verdict, k, run, reread).0.prefix;
      p.dir == w.prefix.dir && p.record == w.prefix.record
  {
  }

  lemma UndoKeepsFiles(w: World, record: Record.Entries, env: UninstallEnv)
    requires ValidPrefix(w.prefix)
    ensures var p := UndoKeys(w, record, env).0.prefix;
      p.dir == w.prefix.dir && p.record == w.prefix.record
  {
    LoopWorld(w, record, env);
    TurnKeepsFiles(w, record, env, FT);
    TurnKeepsFiles(UndoKey(w, record, env, FT).0, record, env, NP);
  }

  /** The key could be read; what was read, if ours, is deleted, or was refused to
      be and then not found; and if not ours, is there still. */
  predicate Cleared(before: Slot, after: Slot, wrote: Option<string>, k: Key, env: UninstallEnv)
    requires ValidSlot(before)
  {
    && ReadKey(k, before, env.queries.At(k)).Success?
    && if OurPath(ReadKey(k, before, env.queries.At(k)).value, wrote) then
         || after.None?
         || (after == before && ReadKey(k, before, env.rereads.At(k)) == Success(Absent))
       else after == before
  }

  /** The key was read as ours, its delete refused, and it still was not found
      empty. */
  predicate Stuck(before: Slot, after: Slot, wrote: Option<string>, k: Key, env: UninstallEnv)
    requires ValidSlot(before)
  {
    && ReadKey(k, before, env.queries.At(k)).Success?
    && OurPath(ReadKey(k, before, env.queries.At(k)).value, wrote)
    && env.deletes.At(k).NotServed? && after == before
    && ReadKey(k, before, env.rereads.At(k)) != Success(Absent)
  }

  lemma TurnMeans(w: World, record: Record.Entries, env: UninstallEnv, k: Key)
    requires ValidPrefix(w.prefix)
    ensures var (w1, turn) := UndoKey(w, record, env, k);
      var before, after := w.prefix.slots.At(k), w1.prefix.slots.At(k);
      var wrote := Record.Recorded(record, Name(k));
      && (turn.CannotRead? <==> ReadKey(k, before, env.queries.At(k)).Failure?)
      && (turn.WineLost? ==> env.deletes.At(k).NotStarted?)
      && (turn.Did? ==>
            if turn.outcome == Failed then Stuck(before, after, wrote, k, env)
            else Cleared(before, after, wrote, k, env))
    ensures forall other: Key :: other != k ==>
      UndoKey(w, record, env, k).0.prefix.slots.At(other) == w.prefix.slots.At(other)
  {
    var read := ReadKey(k, w.prefix.slots.At(k), env.queries.At(k));
    if read.Success? {
      VerdictMeans(read.value, Record.Recorded(record, Name(k)));
      ActMeans(w, UndoFor(read.value, Record.Recorded(record, Name(k))), k, env.deletes.At(k),
               env.rereads.At(k));
    }
  }

  lemma VerdictMeans(reading: Reading, wrote: Option<string>)
    ensures UndoFor(reading, wrote) == Remove <==> OurPath(reading, wrote)
  {
  }

  lemma ActMeans(w: World, verdict: Undo, k: Key, run: WineRun, reread: KeyRead)
    requires ValidPrefix(w.prefix)
    ensures var (w1, turn) := UndoOn(w, verdict, k, run, reread);
      var before, after := w.prefix.slots.At(k), w1.prefix.slots.At(k);
      && (forall other: Key :: other != k ==> w1.prefix.slots.At(other) == w.prefix.slots.At(other))
      && !turn.CannotRead? && (turn.WineLost? ==> run.NotStarted?)
      && (verdict != Remove ==> turn.Did? && turn.outcome != Failed && after == before)
      && (verdict == Remove && turn.Did? ==>
            if turn.outcome == Failed
            then run.NotServed? && after == before && ReadKey(k, before, reread) != Success(Absent)
            else after.None? || (after == before && ReadKey(k, before, reread) == Success(Absent)))
  {
  }

  /** The file was asked, and of neither key showed a path of ours. */
  predicate FileShowsNone(record: Record.Entries, env: UninstallEnv) {
    && env.settled.Some?
    && !OurPath(env.settled.value.ft, Record.Recorded(record, Name(FT)))
    && !OurPath(env.settled.value.np, Record.Recorded(record, Name(NP)))
  }

  predicate BothCleared(w: World, w1: World, record: Record.Entries, env: UninstallEnv)
    requires ValidPrefix(w.prefix)
  {
    && Cleared(w.prefix.slots.ft, w1.prefix.slots.ft, Record.Recorded(record, Name(FT)), FT, env)
    && Cleared(w.prefix.slots.np, w1.prefix.slots.np, Record.Recorded(record, Name(NP)), NP, env)
  }

  lemma ByFileMeans(w: World, record: Record.Entries, env: UninstallEnv)
    requires ValidPrefix(w.prefix) && FileShowsNone(record, env)
    ensures UndoKeys(w, record, env).0 == w && UndoKeys(w, record, env).1.Done?
    ensures Failed !in UndoKeys(w, record, env).1.outcomes
  {
    SettleUnfolds(env.settled.value, record);
    VerdictMeans(env.settled.value.ft, Record.Recorded(record, Name(FT)));
    VerdictMeans(env.settled.value.np, Record.Recorded(record, Name(NP)));
  }

  lemma ByWineMeans(w: World, record: Record.Entries, env: UninstallEnv)
    requires ValidPrefix(w.prefix) && !FileShowsNone(record, env)
    ensures UndoKeys(w, record, env) == UndoFrom(w, record, env, 0, [])
  {
    if env.settled.Some? {
      SettleUnfolds(env.settled.value, record);
      VerdictMeans(env.settled.value.ft, Record.Recorded(record, Name(FT)));
      VerdictMeans(env.settled.value.np, Record.Recorded(record, Name(NP)));
    }
  }

  ghost predicate OneStuck(w: World, w1: World, record: Record.Entries, env: UninstallEnv)
    requires ValidPrefix(w.prefix)
  {
    exists k: Key :: Stuck(w.prefix.slots.At(k), w1.prefix.slots.At(k),
                           Record.Recorded(record, Name(k)), k, env)
  }

  /** How the loop over the keys ends, in terms of the keys. */
  lemma LoopMeans(w: World, record: Record.Entries, env: UninstallEnv)
    requires ValidPrefix(w.prefix)
    ensures var (w1, result) := UndoFrom(w, record, env, 0, []);
      match result
      case Done(outcomes) =>
        if Failed in outcomes then OneStuck(w, w1, record, env) else BothCleared(w, w1, record, env)
      case Unreadable(_) =>
        exists k: Key :: ReadKey(k, w.prefix.slots.At(k), env.queries.At(k)).Failure?
      case NoWine => exists k: Key :: env.deletes.At(k).NotStarted?
  {
    LoopUnfolds(w, record, env);
    TurnMeans(w, record, env, FT);
    var (w1, ft) := UndoKey(w, record, env, FT);
    TurnMeans(w1, record, env, NP);
    var (w2, np) := UndoKey(w1, record, env, NP);
    assert w1.prefix.slots.At(NP) == w.prefix.slots.np;
    assert w2.prefix.slots.At(FT) == w1.prefix.slots.ft;
    if ft.Did? && np.Did? {
      BothOutcomes(ft.outcome, np.outcome);
      if ft.outcome == Failed {
        assert Stuck(w.prefix.slots.At(FT), w2.prefix.slots.At(FT),
                     Record.Recorded(record, Name(FT)), FT, env);
      } else if np.outcome == Failed {
        assert Stuck(w.prefix.slots.At(NP), w2.prefix.slots.At(NP),
                     Record.Recorded(record, Name(NP)), NP, env);
      }
    }
  }

  /** What each outcome of an uninstall says of the keys. Where it came to the
      directory, no key of ours is left behind that it knew of: the file showed
      none, or each could be read and was cleared. */
  lemma UninstallMeans(w: World, env: UninstallEnv)
    requires ValidPrefix(w.prefix)
    ensures var (w1, outcome) := DoUninstall(w, env);
      var record := ReadRecord(w.prefix, env.recordRead);
      match outcome
      case Uninstalled =>
        (FileShowsNone(record, env) && w1.prefix.slots == w.prefix.slots) || BothCleared(w, w1, record, env)
      case NotRemoved =>
        (FileShowsNone(record, env) && w1.prefix.slots == w.prefix.slots) || BothCleared(w, w1, record, env)
      case StillRegistered => OneStuck(w, w1, record, env)
      case KeysUnread =>
        exists k: Key :: ReadKey(k, w.prefix.slots.At(k), env.queries.At(k)).Failure?
      case NoWineLeft => exists k: Key :: env.deletes.At(k).NotStarted?
  {
    var record := ReadRecord(w.prefix, env.recordRead);
    if FileShowsNone(record, env) {
      ByFileMeans(w, record, env);
    } else {
      ByWineMeans(w, record, env);
      LoopMeans(w, record, env);
    }
    RemovalKeepsKeys(UndoKeys(w, record, env).0.prefix, env.removal);
  }

  lemma RemovalKeepsKeys(p: Prefix, removal: Removal)
    ensures RemoveDirectory(p, removal).0.slots == p.slots
    ensures RemoveDirectory(p, removal).1 in {Uninstalled, NotRemoved}
  {
  }

  /** So no key that wine showed to be ours outlives the directory it points into,
      where a wine that fails the first run of a reading fails the second. */
  lemma NoKeyOutlivesTheDirectory(w: World, env: UninstallEnv, k: Key)
    requires ValidPrefix(w.prefix) && w.prefix.dir && !DoUninstall(w, env).0.prefix.dir
    requires env.settled.None? && Steady(env.rereads.At(k))
    ensures var read := ReadKey(k, w.prefix.slots.At(k), env.queries.At(k));
      && read.Success?
      && (OurPath(read.value, Record.Recorded(ReadRecord(w.prefix, env.recordRead), Name(k))) ==>
            DoUninstall(w, env).0.prefix.slots.At(k).None?)
  {
    DirectoryGoesLast(w, env);
    UninstallMeans(w, env);
    WineReadingIsTruthful(k, w.prefix.slots.At(k), env.rereads.At(k));
  }

  /** Where wine serves and the directory can be removed, uninstalling succeeds
      whatever the keys hold. */
  lemma ServedUninstallEnds(w: World, env: UninstallEnv)
    requires ValidPrefix(w.prefix) && AllServed(env)
    ensures DoUninstall(w, env).1 == Uninstalled
  {
    var record := ReadRecord(w.prefix, env.recordRead);
    ReadKeyReads(FT, w.prefix.slots.ft, env.queries.ft);
    ReadKeyReads(NP, w.prefix.slots.np, env.queries.np);
    UninstallMeans(w, env);
  }

  // ----------------------------------------------------------------- install

  /** Nothing but the outcome of the four steps decides how an install ends. */
  lemma RegisteredExactly(w: World, source: NpSource, forced: bool, env: InstallEnv)
    requires ValidPrefix(w.prefix)
    ensures DoInstall(w, source, forced, env).1.Registered?
       <==> && NpTarget(source).Some? && Readings(w.prefix, env.settled, env.queries).Success?
            && (forced || forall k: Key :: !StopsInstall(
                  Readings(w.prefix, env.settled, env.queries).value.At(k),
                  Record.Recorded(ReadRecord(w.prefix, env.recordRead), Name(k)),
                  WantFor(k, NpTarget(source).value)))
            && env.copying.Complete? && env.writes == PerKey(Served, Served) && env.recordWritten
  {
    TargetIsRegistrable(source);
    if NpTarget(source).Some? && Readings(w.prefix, env.settled, env.queries).Success? {
      TakenNone(Readings(w.prefix, env.settled, env.queries).value,
                ReadRecord(w.prefix, env.recordRead), NpTarget(source).value);
    }
  }

  /** The keys are written after everything else is in place: whatever the outcome,
      a key that changed holds what was to be written, the directory is there, and
      the record says so unless it could not be written either. */
  lemma InstallLeaves(w: World, source: NpSource, forced: bool, env: InstallEnv)
    requires ValidPrefix(w.prefix)
    ensures var (w1, outcome) := DoInstall(w, source, forced, env);
      match outcome
      case Unregistrable => w1 == w
      case NotRead => w1 == w
      case Refused(_) => w1 == w
      case NotCopied => w1 == w || w1 == w.(prefix := w.prefix.(dir := true))
      case _ =>
        && NpTarget(source).Some? && Registrable(NpTarget(source).value) && w1.prefix.dir
        && Landing(w, w1, NpTarget(source).value, env)
        && (outcome in {WineGone, NotRecorded} ==> w1.prefix.record == w.prefix.record)
  {
    TargetIsRegistrable(source);
    InstallCases(w, source, forced, env);
    var w1, w2 := w.(prefix := w.prefix.(dir := true)), DoInstall(w, source, forced, env).0;
    if NpTarget(source).Some? {
      WrittenSlots(w1, NpTarget(source).value, forced, env.writes);
      RegisterCases(w1, NpTarget(source).value, forced, env);
      WriteKeysKeepsFiles(w1, NpTarget(source).value, forced, env.writes);
    }
  }

  /** Each key holds the new path if its write landed, and what it held if not; the
      second is not tried where the first found no wine. */
  predicate Landing(w: World, w1: World, npTarget: string, env: InstallEnv)
    requires Registrable(npTarget)
  {
    OwnDirectoryIsRegistrable();
    && w1.prefix.slots.ft
       == (if env.writes.ft.Served? then Some(OurValue(INSTALL_WIN_DIR)) else w.prefix.slots.ft)
    && w1.prefix.slots.np
       == (if env.writes.np.Served? && !env.writes.ft.NotStarted? then Some(OurValue(npTarget))
           else w.prefix.slots.np)
  }
}
