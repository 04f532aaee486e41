/** How far the guarantee over whole runs goes. What is destroyed is accounted
    for by its own text exactly when that text is ASCII, since wine prints any
    other text in a codepage that may make it look like one of ours; and both
    runs of a reading must meet the same wine. */
module Exactness {
  import opened Wrappers
  import opened Text
  import opened RegQuery
  import Record
  import opened Bridge
  import opened BridgeRuns
  import opened OwnRuns
  import opened FastPath

  // --------------------------------------------------------- the log's values

  predicate FormedEffect(e: Effect) {
    match e
    case Wrote(_, before, path, _) => ValidSlot(before) && Registrable(path)
    case Deleted(_, value) => ValidRegValue(value)
  }

  predicate Formed(log: seq<Effect>) {
    forall i :: 0 <= i < |log| ==> FormedEffect(log[i])
  }

  lemma WriteIsFormed(w: World, k: Key, path: string, forced: bool, run: WineRun)
    requires Registrable(path) && ValidPrefix(w.prefix) && Formed(w.log)
    ensures var w1 := Write(w, k, path, forced, run); ValidPrefix(w1.prefix) && Formed(w1.log)
  {
  }

  lemma RegisterIsFormed(w: World, npTarget: string, forced: bool, env: InstallEnv)
    requires Registrable(npTarget) && ValidPrefix(w.prefix) && Formed(w.log)
    ensures Formed(RegisterKeys(w, npTarget, forced, env).0.log)
  {
    OwnDirectoryIsRegistrable();
    RegisterCases(w, npTarget, forced, env);
    WriteIsFormed(w, FT, INSTALL_WIN_DIR, forced, env.writes.ft);
    var w1 := Write(w, FT, INSTALL_WIN_DIR, forced, env.writes.ft);
    WriteIsFormed(w1, NP, npTarget, forced, env.writes.np);
  }

  lemma InstallIsFormed(w: World, source: NpSource, forced: bool, env: InstallEnv)
    requires ValidPrefix(w.prefix) && Formed(w.log)
    ensures Formed(DoInstall(w, source, forced, env).0.log)
  {
    InstallCases(w, source, forced, env);
    var w1, w2 := w.(prefix := w.prefix.(dir := true)), DoInstall(w, source, forced, env).0;
    if w2 != w && w2 != w1 {
      RegisterIsFormed(w1, NpTarget(source).value, forced, env);
    }
  }

  lemma UndoKeyCases(w: World, record: Record.Entries, env: UninstallEnv, k: Key)
    requires ValidPrefix(w.prefix)
    ensures var w1 := UndoKey(w, record, env, k).0; w1 == w || w1 == Delete(w, k, env.deletes.At(k))
  {
  }

  lemma UndoKeyIsFormed(w: World, record: Record.Entries, env: UninstallEnv, k: Key)
    requires ValidPrefix(w.prefix) && Formed(w.log)
    ensures Formed(UndoKey(w, record, env, k).0.log)
  {
    UndoKeyCases(w, record, env, k);
  }

  lemma UndoIsFormed(w: World, record: Record.Entries, env: UninstallEnv)
    requires ValidPrefix(w.prefix) && Formed(w.log)
    ensures Formed(UndoFrom(w, record, env, 0, []).0.log)
  {
    LoopWorld(w, record, env);
    UndoKeyIsFormed(w, record, env, FT);
    UndoKeyIsFormed(UndoKey(w, record, env, FT).0, record, env, NP);
  }

  lemma ApplyIsFormed(w: World, c: Command)
    requires ValidPrefix(w.prefix) && Formed(w.log)
    ensures Formed(Apply(w, c).log)
  {
    match c {
      case Installing(source, forced, env) => InstallIsFormed(w, source, forced, env);
      case Uninstalling(env) => UndoIsFormed(w, ReadRecord(w.prefix, env.recordRead), env);
      case Outside(_) =>
    }
  }

  lemma {:induction false} RunsAreFormed(states: seq<World>, commands: seq<Command>, n: nat)
    requires IsRun(states, commands) && n < |states| && states[0].log == []
    ensures Formed(states[n].log)
  {
    if n > 0 {
      RunsAreFormed(states, commands, n - 1);
      ApplyIsFormed(states[n - 1], commands[n - 1]);
      assert states[n] == Apply(states[n - 1], commands[n - 1]);
    }
  }

  // -------------------------------------------------------------- by its text

  /** The text, or what is left of it without some leading ASCII whitespace. */
  ghost predicate OfText(text: string, path: string) {
    exists lead :: AllWhitespace(lead) && IsAscii(lead) && text == lead + path
  }

  /** The value entry `n` destroyed, if it destroyed one unforced. */
  function Destroyed(log: seq<Effect>, n: nat): Option<RegValue>
    requires n < |log|
  {
    match log[n]
    case Wrote(_, before, _, forced) => if forced then None else before
    case Deleted(_, value) => Some(value)
  }

  ghost predicate AccountedByText(log: seq<Effect>, n: nat, path: string)
    requires n < |log|
  {
    AccountedAs(log, n, path) && Destroyed(log, n).Some?
    && OfText(Destroyed(log, n).value.text, path)
  }

  /** Every path by which a destroyed value is accounted for is ASCII. */
  lemma AccountedPathIsAscii(log: seq<Effect>, n: nat, path: string)
    requires Formed(log) && n < |log| && AccountedAs(log, n, path)
    ensures IsAscii(path)
  {
    var k := log[n].key;
    OwnDirectoryIsRegistrable();
    assert FormedEffect(log[n]);
    if EqIgnoreAsciiCase(path, INSTALL_WIN_DIR) {
      EqualToAscii(path, INSTALL_WIN_DIR);
    } else if LandedBefore(log, n, k, path) {
      var j :| 0 <= j < n && Landed(log[j], k, path);
      assert FormedEffect(log[j]);
      EqualToAscii(path, log[j].path);
    } else {
      EqualToAscii(path, log[n].path);
    }
  }

  lemma ReadableIsOfText(v: RegValue, path: string)
    requires ValidRegValue(v) && IsAscii(v.text) && ReadableAs(v, path)
    ensures OfText(v.text, path)
  {
    if path == v.text {
      assert AllWhitespace("") && IsAscii("") && v.text == "" + path;
    } else {
      var lead := TrimStartSplit(v.text);
      assert IsAscii(lead) by {
        forall i | 0 <= i < |lead| ensures lead[i] as int < 128 {
          assert lead[i] == v.text[i];
        }
      }
    }
  }

  /** A destroyed value is accounted for by its own text if and only if that
      text is ASCII. */
  lemma ByItsOwnText(states: seq<World>, commands: seq<Command>, n: nat, i: nat)
    requires IsRun(states, commands) && n < |states|
    requires ValidPrefix(states[0].prefix) && states[0].log == [] && states[0].prefix.record == None
    requires i < |states[n].log| && Destroyed(states[n].log, i).Some?
    ensures (exists path :: AccountedByText(states[n].log, i, path))
       <==> IsAscii(Destroyed(states[n].log, i).value.text)
  {
    var log := states[n].log;
    var v := Destroyed(log, i).value;
    RunsAreSound(states, commands, n);
    RunsAreFormed(states, commands, n);
    assert Accounted(log, i) && FormedEffect(log[i]);
    if IsAscii(v.text) {
      var path :| AccountedAs(log, i, path);
      ReadableIsOfText(v, path);
      assert AccountedByText(log, i, path);
    }
    if path :| AccountedByText(log, i, path) {
      AccountedPathIsAscii(log, i, path);
    }
  }

  // ------------------------------------------------------- a text not ASCII

  lemma ShownLikeOurs(path: string, v: RegValue)
    requires Writable(path)
    requires v.ty == "REG_SZ" && v.shown == Encode(path)
    ensures ReadingOf(v.ty, v.shown) == Plain(path)
  {
    LineFeedByte(path);
    assert TrimStart(path) == path;
  }

  /** The TrackIR key holds a stranger's value that prints as the path recorded. */
  lemma LossyUndo(w: World, record: Record.Entries, env: UninstallEnv, path: string, v: RegValue)
    requires ValidPrefix(w.prefix) && w.prefix.slots.np == Some(v) && AllServed(env)
    requires Writable(path) && v.ty == "REG_SZ" && v.shown == Encode(path)
    requires Record.Recorded(record, Name(NP)) == Some(path)
    ensures UndoKey(w, record, env, NP) == (Delete(w, NP, Served), Did(Removed))
  {
    ShownLikeOurs(path, v);
    ReadKeyReads(NP, w.prefix.slots.np, env.queries.np);
    EqIgnoreAsciiCaseRefl(path);
    assert Verdict(Plain(path), record, NP) == Remove;
    ServedRemoval(w, record, env, NP, Plain(path));
  }

  lemma DoUninstallLog(w: World, env: UninstallEnv)
    requires ValidPrefix(w.prefix) && env.settled.None?
    ensures DoUninstall(w, env).0.log
         == UndoFrom(w, ReadRecord(w.prefix, env.recordRead), env, 0, []).0.log
  {
  }

  /** Any text that wine prints as the client path this program last wrote is
      taken for that path and deleted, be it a path no one here ever wrote. */
  lemma LossyCodepage(w: World, path: string, v: RegValue, env: UninstallEnv)
    requires ValidPrefix(w.prefix) && Writable(path) && ValidRegValue(v)
    requires Record.Recorded(ReadRecord(w.prefix, true), Name(NP)) == Some(path)
    requires v.ty == "REG_SZ" && !IsAscii(v.text) && v.shown == Encode(path)
    requires AllServed(env) && env.recordRead && env.settled.None?
    ensures var w1 := Apply(w, Outside(w.prefix.slots.(np := Some(v))));
      Deleted(NP, v) in Apply(w1, Uninstalling(env)).log
  {
    var w1 := Apply(w, Outside(w.prefix.slots.(np := Some(v))));
    var record := ReadRecord(w1.prefix, true);
    ServedTurnSucceeds(w1, record, env, FT);
    UndoKeyCases(w1, record, env, FT);
    var w2 := UndoKey(w1, record, env, FT).0;
    LossyUndo(w2, record, env, path, v);
    LoopWorld(w1, record, env);
    DoUninstallLog(w1, env);
    assert UndoKey(w2, record, env, NP).0.log == w2.log + [Deleted(NP, v)];
  }

  // ----------------------------------------------------- a wine gone in between

  predicate Overwrites(env: InstallEnv) {
    env.settled.None? && env.copying.Complete? && env.writes.ft.Served?
  }

  lemma FirstEntry(w: World, npTarget: string, env: InstallEnv)
    requires Registrable(npTarget) && w.log == [] && Overwrites(env)
    ensures var log := RegisterKeys(w, npTarget, false, env).0.log;
      log != [] && log[0] == Wrote(FT, w.prefix.slots.ft, INSTALL_WIN_DIR, false)
  {
    OwnDirectoryIsRegistrable();
    RegisterCases(w, npTarget, false, env);
    var w1 := Write(w, FT, INSTALL_WIN_DIR, false, env.writes.ft);
    assert w1.log == [Wrote(FT, w.prefix.slots.ft, INSTALL_WIN_DIR, false)];
  }

  /** What rules an unsteady reading out of the guarantee: a wine that fails the
      first run and serves the second makes an unforced install, in a prefix it
      has no record in, write over whatever the FreeTrack key holds. */
  lemma UnsteadyReadOverwrites(w: World, source: NpSource, env: InstallEnv, v: RegValue)
    requires ValidPrefix(w.prefix) && w.log == [] && w.prefix.record == None
    requires w.prefix.slots == PerKey(Some(v), None) && NpTarget(source).Some?
    requires Overwrites(env) && env.queries.ft == KeyRead(NotServed, Served)
    requires env.queries.np == KeyRead(NotServed, Served)
    requires forall path :: ReadableAs(v, path) ==> !SameButCase(path, INSTALL_WIN_DIR)
    ensures var log := DoInstall(w, source, false, env).0.log;
      && log != [] && log[0] == Wrote(FT, Some(v), INSTALL_WIN_DIR, false)
      && !Accounted(log, 0)
  {
    TargetIsRegistrable(source);
    var npTarget := NpTarget(source).value;
    ReadKeyReads(FT, w.prefix.slots.ft, env.queries.ft);
    ReadKeyReads(NP, w.prefix.slots.np, env.queries.np);
    TakenNone(PerKey(Absent, Absent), ReadRecord(w.prefix, env.recordRead), npTarget);
    var w1 := w.(prefix := w.prefix.(dir := true));
    assert DoInstall(w, source, false, env) == RegisterKeys(w1, npTarget, false, env);
    FirstEntry(w1, npTarget, env);
  }
}
