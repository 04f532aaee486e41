/** Whole runs of `tobii bridge`: this program's commands in any order, with any
    of their reads and writes failing, and other programs writing the same keys
    between commands. Nothing that cannot be accounted for is destroyed. */
module BridgeRuns {
  import opened Wrappers
  import opened Text
  import opened RegQuery
  import Record
  import opened Bridge

  // ------------------------------------------------------------------- runs

  datatype Command =
    | Installing(source: NpSource, forced: bool, env: InstallEnv)
    | Uninstalling(uenv: UninstallEnv)
    | Outside(slots: PerKey<Slot>)

  predicate SettledTruly(slots: PerKey<Slot>, settled: Option<PerKey<Reading>>) {
    settled.Some? ==>
      FileSays(slots.ft, settled.value.ft) && FileSays(slots.np, settled.value.np)
  }

  predicate AllSteady(queries: PerKey<KeyRead>) {
    Steady(queries.ft) && Steady(queries.np)
  }

  /** What is asked of the world outside: what it answers is true of the keys
      at the time, and what other programs write is a registry value. */
  predicate Fair(w: World, c: Command) {
    match c
    case Installing(_, _, env) =>
      SettledTruly(w.prefix.slots, env.settled) && AllSteady(env.queries)
    case Uninstalling(env) =>
      && SettledTruly(w.prefix.slots, env.settled)
      && AllSteady(env.queries) && AllSteady(env.rereads)
    case Outside(slots) => ValidSlot(slots.ft) && ValidSlot(slots.np)
  }

  function Apply(w: World, c: Command): World
    requires ValidPrefix(w.prefix)
  {
    match c
    case Installing(source, forced, env) => DoInstall(w, source, forced, env).0
    case Uninstalling(env) => DoUninstall(w, env).0
    case Outside(slots) => w.(prefix := w.prefix.(slots := slots))
  }

  /** The states a run goes through, each command fair in the state it meets. */
  ghost predicate IsRun(states: seq<World>, commands: seq<Command>) {
    && |states| == |commands| + 1
    && forall i {:trigger commands[i]} :: 0 <= i < |commands| ==>
         && ValidPrefix(states[i].prefix)
         && Fair(states[i], commands[i])
         && states[i + 1] == Apply(states[i], commands[i])
  }

  // ------------------------------------------------------- what is accounted for

  /** A path by which this program may know the value: its text, or what is left
      of what wine prints once the leading whitespace is gone. */
  ghost predicate ReadableAs(v: RegValue, path: string) {
    && v.ty == "REG_SZ"
    && (path == v.text || (AsciiBytes(v.shown) && path == TrimStart(Decode(v.shown))))
  }

  /** This program wrote such a path into that same key before entry `n`. */
  ghost predicate LandedBefore(log: seq<Effect>, n: nat, k: Key, path: string) {
    n <= |log| && exists j :: 0 <= j < n && Landed(log[j], k, path)
  }

  predicate Landed(e: Effect, k: Key, path: string) {
    e.Wrote? && e.key == k && SameButCase(path, e.path)
  }

  ghost predicate OursAt(log: seq<Effect>, n: nat, k: Key, path: string) {
    SameButCase(path, INSTALL_WIN_DIR) || LandedBefore(log, n, k, path)
  }

  /** A path by which the value that entry `n` destroys is accounted for. */
  ghost predicate AccountedAs(log: seq<Effect>, n: nat, path: string)
    requires n < |log|
  {
    match log[n]
    case Wrote(k, before, written, _) =>
      before.Some? && ReadableAs(before.value, path)
      && (OursAt(log, n, k, path) || SameButCase(path, written))
    case Deleted(k, value) => ReadableAs(value, path) && OursAt(log, n, k, path)
  }

  /** Entry `n` destroys nothing, or is forced, or what it destroys is accounted for. */
  ghost predicate Accounted(log: seq<Effect>, n: nat)
    requires n < |log|
  {
    || (log[n].Wrote? && (log[n].forced || log[n].before.None?))
    || exists path :: AccountedAs(log, n, path)
  }

  ghost predicate AllAccounted(log: seq<Effect>) {
    forall n :: 0 <= n < |log| ==> Accounted(log, n)
  }

  /** The log holds the write the record speaks of. */
  ghost predicate Claimed(log: seq<Effect>, e: Record.Entry) {
    exists j :: 0 <= j < |log| && ClaimedBy(log[j], e)
  }

  predicate ClaimedBy(effect: Effect, e: Record.Entry) {
    effect.Wrote? && Name(effect.key) == e.name && effect.path == e.wrote
  }

  ghost predicate AllClaimed(log: seq<Effect>, record: Record.Entries) {
    forall e :: e in record ==> Claimed(log, e)
  }

  ghost predicate Sound(w: World) {
    && ValidPrefix(w.prefix)
    && AllAccounted(w.log)
    && AllClaimed(w.log, ReadRecord(w.prefix, true))
  }

  // ---------------------------------------------------------------- the log grows

  lemma LogGrows(log: seq<Effect>, e: Effect, record: Record.Entries)
    requires AllAccounted(log) && Accounted(log + [e], |log|) && AllClaimed(log, record)
    ensures AllAccounted(log + [e]) && AllClaimed(log + [e], record)
  {
    var longer := log + [e];
    forall n | 0 <= n < |log| ensures Accounted(longer, n) {
      assert longer[n] == log[n];
      if !(log[n].Wrote? && (log[n].forced || log[n].before.None?)) {
        assert Accounted(log, n);
        var path :| AccountedAs(log, n, path);
        AccountedStays(log, e, n, path);
        assert AccountedAs(longer, n, path);
      }
    }
    forall r | r in record ensures Claimed(longer, r) {
      var j :| 0 <= j < |log| && ClaimedBy(log[j], r);
      assert ClaimedBy(longer[j], r);
    }
  }

  lemma AccountedStays(log: seq<Effect>, e: Effect, n: nat, path: string)
    requires n < |log| && AccountedAs(log, n, path)
    ensures AccountedAs(log + [e], n, path)
  {
    var k := log[n].key;
    if LandedBefore(log, n, k, path) {
      LandedStays(log, e, n, k, path);
    }
  }

  lemma LandedStays(log: seq<Effect>, e: Effect, n: nat, k: Key, path: string)
    requires LandedBefore(log, n, k, path)
    ensures LandedBefore(log + [e], n, k, path) && LandedBefore(log + [e], |log|, k, path)
  {
    var j :| 0 <= j < n && Landed(log[j], k, path);
    assert Landed((log + [e])[j], k, path);
  }

  // ------------------------------------------------------------------ reading

  /** A reading that is no lie about the key. */
  ghost predicate Truthful(slot: Slot, reading: Reading) {
    match reading
    case Absent => slot.None?
    case Plain(path) => slot.Some? && ReadableAs(slot.value, path)
    case Other(_) => true
  }

  lemma ReadKeyReads(k: Key, slot: Slot, read: KeyRead)
    requires ValidSlot(slot)
    ensures read.query.Served? && slot.Some? ==>
      ReadKey(k, slot, read) == Success(ReadingOf(slot.value.ty, slot.value.shown))
    ensures !(read.query.Served? && slot.Some?) ==>
      ReadKey(k, slot, read)
      == if !read.query.NotStarted? && read.probe.Served? then Success(Absent) else Failure(())
  {
    if read.query.Served? && slot.Some? {
      KeyNamesPrint(k);
      WineOutputIsRead(KeyName(k), slot.value.ty, slot.value.shown);
    }
  }

  lemma ShownIsTruthful(v: RegValue)
    ensures Truthful(Some(v), ReadingOf(v.ty, v.shown)) && ReadingOf(v.ty, v.shown) != Absent
  {
  }

  /** One reading through wine lies exactly when wine serves the second of its
      two runs and not the first, over a key that holds a value. */
  lemma WineReadingIsTruthful(k: Key, slot: Slot, read: KeyRead)
    requires ValidSlot(slot)
    ensures ReadKey(k, slot, read).Success? ==>
      (Truthful(slot, ReadKey(k, slot, read).value) <==> Steady(read) || slot.None?)
  {
    ReadKeyReads(k, slot, read);
    if slot.Some? {
      ShownIsTruthful(slot.value);
    }
  }

  lemma ReadingsAreTruthful(p: Prefix, settled: Option<PerKey<Reading>>, queries: PerKey<KeyRead>)
    requires ValidPrefix(p) && SettledTruly(p.slots, settled) && AllSteady(queries)
    requires Readings(p, settled, queries).Success?
    ensures Truthful(p.slots.ft, Readings(p, settled, queries).value.ft)
    ensures Truthful(p.slots.np, Readings(p, settled, queries).value.np)
  {
    WineReadingIsTruthful(FT, p.slots.ft, queries.ft);
    WineReadingIsTruthful(NP, p.slots.np, queries.np);
  }

  /** What the record names for a key landed in it. */
  lemma {:induction false} RecordedIsClaimed(log: seq<Effect>, record: Record.Entries, k: Key)
    requires AllClaimed(log, record) && Record.Recorded(record, Name(k)).Some?
    ensures Claimed(log, Record.Entry(Name(k), Record.Recorded(record, Name(k)).value))
  {
    if record[0].name != Name(k) {
      assert forall e :: e in record[1..] ==> e in record;
      RecordedIsClaimed(log, record[1..], k);
    }
  }

  lemma NamesDiffer()
    ensures Name(FT) != Name(NP)
  {
    assert Name(FT)[0] != Name(NP)[0];
  }

  /** A key that reads as ours holds what is accounted for. */
  lemma OursIsAccounted(log: seq<Effect>, record: Record.Entries, k: Key, path: string)
    requires AllClaimed(log, record)
    requires IsOurs(Plain(path), Record.Recorded(record, Name(k)))
    ensures OursAt(log, |log|, k, path)
  {
    if !SameButCase(path, INSTALL_WIN_DIR) {
      var wrote := Record.Recorded(record, Name(k)).value;
      RecordedIsClaimed(log, record, k);
      var j :| 0 <= j < |log| && ClaimedBy(log[j], Record.Entry(Name(k), wrote));
      NamesDiffer();
      assert Landed(log[j], k, path);
    }
  }

  // ------------------------------------------------------------------ install

  /** An unforced write over a key install did not stop on. */
  lemma WriteIsAccounted(w: World, record: Record.Entries, k: Key, reading: Reading, path: string,
                         forced: bool, run: WineRun)
    requires Registrable(path) && ValidPrefix(w.prefix)
    requires AllAccounted(w.log) && AllClaimed(w.log, record)
    requires Truthful(w.prefix.slots.At(k), reading)
    requires forced || !StopsInstall(reading, Record.Recorded(record, Name(k)), path)
    ensures var w1 := Write(w, k, path, forced, run);
      ValidPrefix(w1.prefix) && AllAccounted(w1.log) && AllClaimed(w1.log, record)
  {
    if run.Served? {
      var slot := w.prefix.slots.At(k);
      var e := Wrote(k, slot, path, forced);
      var log := w.log + [e];
      if !forced && slot.Some? {
        var p := reading.path;
        if IsOurs(reading, Record.Recorded(record, Name(k))) {
          OursIsAccounted(w.log, record, k, p);
          if LandedBefore(w.log, |w.log|, k, p) {
            LandedStays(w.log, e, |w.log|, k, p);
          }
        }
        assert AccountedAs(log, |w.log|, p);
      }
      LogGrows(w.log, e, record);
    }
  }

  lemma TakenNone(readings: PerKey<Reading>, record: Record.Entries, npTarget: string)
    ensures Taken(readings, record, npTarget) == [] <==>
      forall k: Key ::
        !StopsInstall(readings.At(k), Record.Recorded(record, Name(k)), WantFor(k, npTarget))
  {
    assert KEYS[0] == FT && KEYS[1] == NP;
    var one := TakenAmong(readings, record, npTarget, 1);
    assert TakenAmong(readings, record, npTarget, 0) == [];
  }

  lemma KeptUnfolds(record: Record.Entries, npTarget: string, writes: PerKey<WineRun>)
    ensures var one := if writes.ft.Served?
        then Record.Upserted(record, Name(FT), INSTALL_WIN_DIR) else record;
      Kept(record, npTarget, writes)
      == if writes.np.Served? then Record.Upserted(one, Name(NP), npTarget) else one
  {
    assert KEYS[0] == FT && KEYS[1] == NP;
    assert KeptAmong(record, npTarget, writes, 0) == record;
    assert KeptAmong(record, npTarget, writes, 1)
        == if writes.ft.Served? then Record.Upserted(record, Name(FT), INSTALL_WIN_DIR) else record;
  }

  /** The entries of the merged record are old ones, or name what just landed. */
  lemma KeptMembers(record: Record.Entries, npTarget: string, writes: PerKey<WineRun>, e: Record.Entry)
    requires e in Kept(record, npTarget, writes)
    ensures e in record || exists k: Key ::
      writes.At(k).Served? && e == Record.Entry(Name(k), WantFor(k, npTarget))
  {
    KeptUnfolds(record, npTarget, writes);
    var one := if writes.ft.Served?
      then Record.Upserted(record, Name(FT), INSTALL_WIN_DIR) else record;
    if e !in one {
      Record.UpsertedMembers(one, Name(NP), npTarget, e);
      assert writes.At(NP).Served?;
    } else if e !in record {
      Record.UpsertedMembers(record, Name(FT), INSTALL_WIN_DIR, e);
      assert writes.At(FT).Served?;
    }
  }

  lemma NamesRecordable(k: Key, path: string)
    requires Registrable(path) && path != ""
    ensures Record.Recordable(Record.Entry(Name(k), path))
  {
    assert path[|path| - 1] in path;
  }

  /** What is written into the record is what is read back out of it. */
  lemma KeptReadsBack(known: Record.Entries, npTarget: string, writes: PerKey<WineRun>)
    requires Registrable(npTarget) && npTarget != ""
    requires Record.AllRecordable(known) && Record.DistinctNames(known)
    ensures Record.Parsed(Record.Rendered(Kept(known, npTarget, writes)))
         == Kept(known, npTarget, writes)
  {
    OwnDirectoryIsRegistrable();
    NamesRecordable(FT, INSTALL_WIN_DIR);
    NamesRecordable(NP, npTarget);
    KeptUnfolds(known, npTarget, writes);
    var one := if writes.ft.Served?
      then Record.Upserted(known, Name(FT), INSTALL_WIN_DIR) else known;
    Record.UpsertedKeeps(known, Name(FT), INSTALL_WIN_DIR);
    Record.UpsertedKeeps(one, Name(NP), npTarget);
    Record.RecordReadsBack(Kept(known, npTarget, writes));
  }

  lemma WriteIsClaimed(w: World, k: Key, path: string, forced: bool, run: WineRun,
                       record: Record.Entries)
    requires Registrable(path) && AllClaimed(w.log, record)
    ensures var log := Write(w, k, path, forced, run).log;
      AllClaimed(log, record) && (run.Served? ==> Claimed(log, Record.Entry(Name(k), path)))
  {
    if run.Served? {
      var e := Wrote(k, w.prefix.slots.At(k), path, forced);
      var log := w.log + [e];
      forall r | r in record ensures Claimed(log, r) {
        var j :| 0 <= j < |w.log| && ClaimedBy(w.log[j], r);
        assert ClaimedBy(log[j], r);
      }
      assert ClaimedBy(log[|w.log|], Record.Entry(Name(k), path));
    }
  }

  lemma ClaimStays(w: World, k: Key, path: string, forced: bool, run: WineRun, r: Record.Entry)
    requires Registrable(path) && Claimed(w.log, r)
    ensures Claimed(Write(w, k, path, forced, run).log, r)
  {
    WriteIsClaimed(w, k, path, forced, run, [r]);
    assert r in [r];
  }

  lemma RecordReadIsClaimed(w: World, readable: bool)
    requires Sound(w)
    ensures AllClaimed(w.log, ReadRecord(w.prefix, readable))
  {
    assert Record.Parsed("") == [];
  }

  /** The record after the keys are written: old claims, and what just landed. */
  lemma KeptIsClaimed(log: seq<Effect>, known: Record.Entries, npTarget: string,
                      writes: PerKey<WineRun>)
    requires AllClaimed(log, known)
    requires writes.ft.Served? ==> Claimed(log, Record.Entry(Name(FT), INSTALL_WIN_DIR))
    requires writes.np.Served? ==> Claimed(log, Record.Entry(Name(NP), npTarget))
    ensures AllClaimed(log, Kept(known, npTarget, writes))
  {
    forall e | e in Kept(known, npTarget, writes) ensures Claimed(log, e) {
      KeptMembers(known, npTarget, writes, e);
      if e !in known {
        var k: Key :| writes.At(k).Served? && e == Record.Entry(Name(k), WantFor(k, npTarget));
        assert k == FT || k == NP;
      }
    }
  }

  /** The two writes, where install did not stop or was told not to. */
  lemma WritesAreSound(w: World, npTarget: string, forced: bool, writes: PerKey<WineRun>,
                       readings: PerKey<Reading>, known: Record.Entries)
    requires Registrable(npTarget) && ValidPrefix(w.prefix)
    requires AllAccounted(w.log) && AllClaimed(w.log, known)
    requires Truthful(w.prefix.slots.ft, readings.ft) && Truthful(w.prefix.slots.np, readings.np)
    requires forced || Taken(readings, known, npTarget) == []
    ensures var w1 := WriteKeys(w, npTarget, forced, writes);
      ValidPrefix(w1.prefix) && AllAccounted(w1.log)
  {
    OwnDirectoryIsRegistrable();
    TakenNone(readings, known, npTarget);
    assert WantFor(FT, npTarget) == INSTALL_WIN_DIR && WantFor(NP, npTarget) == npTarget;
    assert readings.At(FT) == readings.ft && readings.At(NP) == readings.np;
    WriteIsAccounted(w, known, FT, readings.ft, INSTALL_WIN_DIR, forced, writes.ft);
    var w1 := Write(w, FT, INSTALL_WIN_DIR, forced, writes.ft);
    WriteIsAccounted(w1, known, NP, readings.np, npTarget, forced, writes.np);
  }

  lemma WritesAreClaimed(w: World, npTarget: string, forced: bool, writes: PerKey<WineRun>,
                         record: Record.Entries)
    requires Registrable(npTarget) && AllClaimed(w.log, record)
    ensures var log := WriteKeys(w, npTarget, forced, writes).log;
      && AllClaimed(log, record)
      && (writes.ft.Served? ==> Claimed(log, Record.Entry(Name(FT), INSTALL_WIN_DIR)))
      && (!writes.ft.NotStarted? && writes.np.Served? ==>
            Claimed(log, Record.Entry(Name(NP), npTarget)))
  {
    OwnDirectoryIsRegistrable();
    WriteIsClaimed(w, FT, INSTALL_WIN_DIR, forced, writes.ft, record);
    var w1 := Write(w, FT, INSTALL_WIN_DIR, forced, writes.ft);
    WriteIsClaimed(w1, NP, npTarget, forced, writes.np, record);
    if writes.ft.Served? {
      ClaimStays(w1, NP, npTarget, forced, writes.np, Record.Entry(Name(FT), INSTALL_WIN_DIR));
    }
  }

  /** The world once the merged record is in place. */
  function WithRecord(w: World, kept: Record.Entries): World {
    w.(prefix := w.prefix.(record := Some(Record.Rendered(kept))))
  }

  lemma RecordIsSound(w: World, kept: Record.Entries)
    requires ValidPrefix(w.prefix) && w.prefix.dir && AllAccounted(w.log)
    requires AllClaimed(w.log, kept) && Record.Parsed(Record.Rendered(kept)) == kept
    ensures Sound(WithRecord(w, kept))
  {
  }

  /** What writing the keys leaves behind, the record not yet touched. */
  lemma WrittenKeysAreSound(w: World, npTarget: string, forced: bool, env: InstallEnv,
                            readings: PerKey<Reading>)
    requires Registrable(npTarget) && Sound(w)
    requires Truthful(w.prefix.slots.ft, readings.ft) && Truthful(w.prefix.slots.np, readings.np)
    requires forced || Taken(readings, ReadRecord(w.prefix, env.recordRead), npTarget) == []
    ensures Sound(WriteKeys(w, npTarget, forced, env.writes))
  {
    var known := ReadRecord(w.prefix, env.recordRead);
    RecordReadIsClaimed(w, env.recordRead);
    WritesAreSound(w, npTarget, forced, env.writes, readings, known);
    WritesAreClaimed(w, npTarget, forced, env.writes, ReadRecord(w.prefix, true));
    WriteKeysKeepsFiles(w, npTarget, forced, env.writes);
  }

  lemma WriteKeysKeepsFiles(w: World, npTarget: string, forced: bool, writes: PerKey<WineRun>)
    requires Registrable(npTarget)
    ensures var w1 := WriteKeys(w, npTarget, forced, writes);
      w1.prefix.dir == w.prefix.dir && w1.prefix.record == w.prefix.record
  {
  }

  /** The record is rewritten once both runs found a wine and one of them wrote. */
  predicate RewritesRecord(env: InstallEnv) {
    && !env.writes.ft.NotStarted? && !env.writes.np.NotStarted?
    && (env.writes.ft.Served? || env.writes.np.Served?) && env.recordWritten
  }

  lemma RegisterCases(w: World, npTarget: string, forced: bool, env: InstallEnv)
    requires Registrable(npTarget)
    ensures var w1 := WriteKeys(w, npTarget, forced, env.writes);
      RegisterKeys(w, npTarget, forced, env).0
      == if RewritesRecord(env)
         then WithRecord(w1, Kept(ReadRecord(w.prefix, env.recordRead), npTarget, env.writes))
         else w1
  {
  }

  lemma MergedRecordIsSound(w: World, w1: World, npTarget: string, forced: bool, env: InstallEnv)
    requires Registrable(npTarget) && npTarget != "" && Sound(w) && w.prefix.dir
    requires w1 == WriteKeys(w, npTarget, forced, env.writes) && Sound(w1)
    requires !env.writes.ft.NotStarted?
    ensures Sound(WithRecord(w1, Kept(ReadRecord(w.prefix, env.recordRead), npTarget, env.writes)))
  {
    var known := ReadRecord(w.prefix, env.recordRead);
    RecordReadIsClaimed(w, env.recordRead);
    WritesAreClaimed(w, npTarget, forced, env.writes, known);
    KeptIsClaimed(w1.log, known, npTarget, env.writes);
    RecordIsNormal(w.prefix, env.recordRead);
    KeptReadsBack(known, npTarget, env.writes);
    WriteKeysKeepsFiles(w, npTarget, forced, env.writes);
    RecordIsSound(w1, Kept(known, npTarget, env.writes));
  }

  lemma RegisterIsSound(w: World, npTarget: string, forced: bool, env: InstallEnv,
                        readings: PerKey<Reading>)
    requires Registrable(npTarget) && npTarget != "" && Sound(w) && w.prefix.dir
    requires Truthful(w.prefix.slots.ft, readings.ft) && Truthful(w.prefix.slots.np, readings.np)
    requires forced || Taken(readings, ReadRecord(w.prefix, env.recordRead), npTarget) == []
    ensures Sound(RegisterKeys(w, npTarget, forced, env).0)
  {
    WrittenKeysAreSound(w, npTarget, forced, env, readings);
    RegisterCases(w, npTarget, forced, env);
    var w1 := WriteKeys(w, npTarget, forced, env.writes);
    if RewritesRecord(env) {
      MergedRecordIsSound(w, w1, npTarget, forced, env);
    }
  }

  lemma RecordIsNormal(p: Prefix, readable: bool)
    ensures Record.AllRecordable(ReadRecord(p, readable))
    ensures Record.DistinctNames(ReadRecord(p, readable))
  {
    Record.ParsedIsNormal(if readable && p.record.Some? then p.record.value else "");
  }

  lemma SoundWithDirectory(w: World)
    requires Sound(w)
    ensures Sound(w.(prefix := w.prefix.(dir := true)))
  {
    assert ReadRecord(w.prefix.(dir := true), true) == ReadRecord(w.prefix, true);
  }

  /** Install either stops before the keys or goes through both. */
  lemma InstallCases(w: World, source: NpSource, forced: bool, env: InstallEnv)
    requires ValidPrefix(w.prefix)
    ensures var w1, w2 := w.(prefix := w.prefix.(dir := true)), DoInstall(w, source, forced, env).0;
      || w2 == w
      || w2 == w1
      || (&& NpTarget(source).Some? && Registrable(NpTarget(source).value)
          && Readings(w.prefix, env.settled, env.queries).Success?
          && (forced || Taken(Readings(w.prefix, env.settled, env.queries).value,
                              ReadRecord(w1.prefix, env.recordRead), NpTarget(source).value) == [])
          && w2 == RegisterKeys(w1, NpTarget(source).value, forced, env).0)
  {
    TargetIsRegistrable(source);
    var w1 := w.(prefix := w.prefix.(dir := true));
    assert ReadRecord(w1.prefix, env.recordRead) == ReadRecord(w.prefix, env.recordRead);
  }

  lemma InstallIsSound(w: World, source: NpSource, forced: bool, env: InstallEnv)
    requires Sound(w) && Fair(w, Installing(source, forced, env))
    ensures Sound(DoInstall(w, source, forced, env).0)
  {
    InstallCases(w, source, forced, env);
    SoundWithDirectory(w);
    var w1, w2 := w.(prefix := w.prefix.(dir := true)), DoInstall(w, source, forced, env).0;
    if w2 != w && w2 != w1 {
      TargetIsRegistrable(source);
      ReadingsAreTruthful(w.prefix, env.settled, env.queries);
      var readings := Readings(w.prefix, env.settled, env.queries).value;
      RegisterIsSound(w1, NpTarget(source).value, forced, env, readings);
    }
  }

  // ---------------------------------------------------------------- uninstall

  lemma DeleteIsSound(w: World, record: Record.Entries, k: Key, reading: Reading, run: WineRun)
    requires ValidPrefix(w.prefix) && AllAccounted(w.log) && AllClaimed(w.log, record)
    requires Truthful(w.prefix.slots.At(k), reading)
    requires IsOurs(reading, Record.Recorded(record, Name(k)))
    ensures var w1 := Delete(w, k, run);
      ValidPrefix(w1.prefix) && AllAccounted(w1.log) && AllClaimed(w1.log, record)
  {
    if run.Served? && w.prefix.slots.At(k).Some? {
      var e := Deleted(k, w.prefix.slots.At(k).value);
      var p := reading.path;
      OursIsAccounted(w.log, record, k, p);
      if LandedBefore(w.log, |w.log|, k, p) {
        LandedStays(w.log, e, |w.log|, k, p);
      }
      assert AccountedAs(w.log + [e], |w.log|, p);
      LogGrows(w.log, e, record);
    }
  }

  /** What holds of a world under `uninstall`, for the record it read and for
      the record on disk. */
  ghost predicate Undoing(w: World, record: Record.Entries, filed: Record.Entries) {
    && ValidPrefix(w.prefix) && AllAccounted(w.log)
    && AllClaimed(w.log, record) && AllClaimed(w.log, filed)
  }

  lemma UndoKeyIsSound(w: World, record: Record.Entries, env: UninstallEnv, k: Key,
                       filed: Record.Entries)
    requires Undoing(w, record, filed) && AllSteady(env.queries)
    ensures var w1 := UndoKey(w, record, env, k).0;
      Undoing(w1, record, filed) && w1.prefix.dir == w.prefix.dir
      && w1.prefix.record == w.prefix.record
  {
    var slot, read := w.prefix.slots.At(k), env.queries.At(k);
    if UndoKey(w, record, env, k).0 != w {
      WineReadingIsTruthful(k, slot, read);
      DeleteIsSound(w, record, k, ReadKey(k, slot, read).value, env.deletes.At(k));
      DeleteKeepsClaims(w, k, env.deletes.At(k), filed);
    }
  }

  /** What the loop comes to, the last turn being this one. */
  function After(last: (World, UndoTurn), one: seq<Outcome>): (World, UndoResult) {
    match last.1
    case CannotRead => (last.0, Unreadable(one))
    case WineLost => (last.0, NoWine)
    case Did(outcome) => (last.0, Done(one + [outcome]))
  }

  /** What the loop comes to after its one turn for each key. */
  function BothResults(w: World, record: Record.Entries, env: UninstallEnv): (World, UndoResult)
    requires ValidPrefix(w.prefix)
  {
    var first := UndoKey(w, record, env, FT);
    if first.1.Did? then After(UndoKey(first.0, record, env, NP), [first.1.outcome])
    else After(first, [])
  }

  lemma LoopUnfolds(w: World, record: Record.Entries, env: UninstallEnv)
    requires ValidPrefix(w.prefix)
    ensures UndoFrom(w, record, env, 0, []) == BothResults(w, record, env)
  {
    assert KEYS[0] == FT && KEYS[1] == NP;
    var (w1, ft) := UndoKey(w, record, env, FT);
    if ft.Did? {
      var one := [ft.outcome];
      assert [] + [ft.outcome] == one;
      LastTurn(w1, record, env, one);
    }
  }

  lemma LoopWorld(w: World, record: Record.Entries, env: UninstallEnv)
    requires ValidPrefix(w.prefix)
    ensures var first := UndoKey(w, record, env, FT);
      UndoFrom(w, record, env, 0, []).0
      == if first.1.Did? then UndoKey(first.0, record, env, NP).0 else first.0
  {
    LoopUnfolds(w, record, env);
  }

  lemma LastTurn(w: World, record: Record.Entries, env: UninstallEnv, one: seq<Outcome>)
    requires ValidPrefix(w.prefix)
    ensures UndoFrom(w, record, env, 1, one) == After(UndoKey(w, record, env, NP), one)
  {
    assert KEYS[1] == NP;
  }

  lemma UndoIsSound(w: World, record: Record.Entries, env: UninstallEnv, filed: Record.Entries)
    requires AllSteady(env.queries) && Undoing(w, record, filed)
    ensures var w1 := UndoFrom(w, record, env, 0, []).0;
      Undoing(w1, record, filed) && w1.prefix.dir == w.prefix.dir
      && w1.prefix.record == w.prefix.record
  {
    LoopUnfolds(w, record, env);
    UndoKeyIsSound(w, record, env, FT, filed);
    UndoKeyIsSound(UndoKey(w, record, env, FT).0, record, env, NP, filed);
  }

  lemma DeleteKeepsClaims(w: World, k: Key, run: WineRun, record: Record.Entries)
    requires AllClaimed(w.log, record)
    ensures AllClaimed(Delete(w, k, run).log, record)
  {
    forall r | r in record ensures Claimed(Delete(w, k, run).log, r) {
      var j :| 0 <= j < |w.log| && ClaimedBy(w.log[j], r);
      assert ClaimedBy(Delete(w, k, run).log[j], r);
    }
  }

  lemma UninstallIsSound(w: World, env: UninstallEnv)
    requires Sound(w) && Fair(w, Uninstalling(env))
    ensures Sound(DoUninstall(w, env).0)
  {
    var known, filed := ReadRecord(w.prefix, env.recordRead), ReadRecord(w.prefix, true);
    RecordReadIsClaimed(w, env.recordRead);
    UndoIsSound(w, known, env, filed);
    var w1 := UndoKeys(w, known, env).0;
    assert Sound(w1);
    var (p, _) := RemoveDirectory(w1.prefix, env.removal);
    assert Record.Parsed("") == [];
    assert Sound(w1.(prefix := p));
  }

  // ------------------------------------------------------------- whole runs

  lemma ApplyIsSound(w: World, c: Command)
    requires Sound(w) && Fair(w, c)
    ensures Sound(Apply(w, c))
  {
    match c {
      case Installing(source, forced, env) => InstallIsSound(w, source, forced, env);
      case Uninstalling(env) => UninstallIsSound(w, env);
      case Outside(_) =>
    }
  }

  /** Over every run from a prefix this program never wrote a record into, what
      was ever destroyed without being told to is accounted for, and every line
      of the record names a value this program landed in that very key. */
  lemma {:induction false} RunsAreSound(states: seq<World>, commands: seq<Command>, n: nat)
    requires IsRun(states, commands) && n < |states|
    requires ValidPrefix(states[0].prefix) && states[0].log == [] && states[0].prefix.record == None
    ensures Sound(states[n])
  {
    if n == 0 {
      assert Record.Parsed("") == [];
    } else {
      RunsAreSound(states, commands, n - 1);
      ApplyIsSound(states[n - 1], commands[n - 1]);
    }
  }
}
