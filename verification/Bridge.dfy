/** `tobii bridge install` and `uninstall` on the two discovery keys of one
    prefix: what they decide, and what they do to the keys and to the record.
    What the outside world answers (wine, the file system, the prefix's own
    `user.reg`) is an input of each command. */
module Bridge {
  import opened Wrappers
  import opened Text
  import opened Octets
  import opened RegQuery
  import UserReg
  import Record

  // ------------------------------------------------------------------- keys

  datatype Key = FT | NP

  /** In the order both commands go through them. */
  const KEYS: seq<Key> := [FT, NP]

  /** The name a key is recorded under. */
  function Name(k: Key): string {
    match k
    case FT => "ft"
    case NP => "np"
  }

  /** The key as `reg query` prints it. */
  function KeyName(k: Key): string {
    match k
    case FT => "HKEY_CURRENT_USER\\" + "Software\\Freetrack\\" + "FreeTrackClient"
    case NP => "HKEY_CURRENT_USER\\" + "Software\\NaturalPoint\\" + "NATURALPOINT\\NPClient Location"
  }

  const INSTALL_WIN_DIR := "C:\\tobii-bridge"

  datatype PerKey<T> = PerKey(ft: T, np: T) {
    function At(k: Key): T {
      match k
      case FT => ft
      case NP => np
    }

    function With(k: Key, x: T): PerKey<T> {
      match k
      case FT => this.(ft := x)
      case NP => this.(np := x)
    }
  }

  /** A `Path` value: its type, its text, and the bytes wine prints for it, in
      a console codepage that agrees with ASCII and with nothing else. */
  datatype RegValue = RegValue(ty: string, text: string, shown: Bytes)

  predicate ValidRegValue(v: RegValue) {
    IsToken(v.ty) && (IsAscii(v.text) ==> v.shown == Encode(v.text))
  }

  type Slot = Option<RegValue>

  predicate ValidSlot(slot: Slot) {
    slot.Some? ==> ValidRegValue(slot.value)
  }

  function OurValue(path: string): (v: RegValue)
    requires Registrable(path)
  {
    RegValue("REG_SZ", path, Encode(path))
  }

  /** Which TrackIR client this run registers. */
  datatype NpSource = Ours | Installed(dir: string)

  /** `np_target_for`, once the client is chosen. */
  function NpTarget(source: NpSource): Option<string> {
    match source
    case Ours => Some(INSTALL_WIN_DIR)
    case Installed(dir) => RegistrablePath(dir)
  }

  /** `want_for` */
  function WantFor(k: Key, npTarget: string): string {
    if k == NP then npTarget else INSTALL_WIN_DIR
  }

  // -------------------------------------------------------------- decisions

  /** `is_ours` */
  predicate IsOurs(current: Reading, wrote: Option<string>) {
    match current
    case Plain(v) =>
      || EqIgnoreAsciiCase(v, INSTALL_WIN_DIR)
      || (wrote.Some? && EqIgnoreAsciiCase(v, wrote.value))
    case _ => false
  }

  /** `stops_install` */
  predicate StopsInstall(current: Reading, wrote: Option<string>, want: string) {
    if current == Absent || IsOurs(current, wrote) then false
    else !(wrote.None? && current.Plain? && EqIgnoreAsciiCase(current.path, want))
  }

  /** Whether a key left alone has a line in the record is all that decides
      which of two sentences is said about it. */
  datatype Undo = Remove | Nothing | Leave(recorded: bool)

  /** `undo_for` */
  function UndoFor(current: Reading, wrote: Option<string>): Undo {
    if current == Absent then Nothing
    else if IsOurs(current, wrote) then Remove
    else Leave(wrote.Some?)
  }

  // ---------------------------------------------------------------- reading

  /** One wine process: not started, started but not serving the prefix (or
      the write refused), or serving it. */
  datatype WineRun = NotStarted | NotServed | Served

  /** The two runs one reading may take: of the key, and of a key every prefix
      has, when the first exits with an error. */
  datatype KeyRead = KeyRead(query: WineRun, probe: WineRun)

  /** `read_key` */
  function ReadKey(k: Key, slot: Slot, read: KeyRead): Result<Reading, ()>
    requires ValidSlot(slot)
  {
    if read.query.NotStarted? then Failure(())
    else if read.query.Served? && slot.Some? then
      KeyNamesPrint(k);
      Success(RegQueryPath(WineOutput(KeyName(k), slot.value.ty, slot.value.shown)))
    else if read.probe.Served? then Success(Absent)
    else Failure(())
  }

  predicate OneLineAscii(s: string) {
    forall i :: 0 <= i < |s| ==> ' ' <= s[i] <= '~'
  }

  lemma ThreePieces(a: string, b: string, c: string)
    requires a != "" && a[0] == 'H' && OneLineAscii(a) && OneLineAscii(b) && OneLineAscii(c)
    ensures IsKeyName(a + b + c)
  {
    var key := a + b + c;
    forall i | 0 <= i < |key| ensures ' ' <= key[i] <= '~' {
    }
  }

  lemma FreeTrackKeyName()
    ensures IsKeyName(KeyName(FT))
  {
    ThreePieces("HKEY_CURRENT_USER\\", "Software\\Freetrack\\", "FreeTrackClient");
  }

  lemma TrackIrKeyName()
    ensures IsKeyName(KeyName(NP))
  {
    ThreePieces("HKEY_CURRENT_USER\\", "Software\\NaturalPoint\\", "NATURALPOINT\\NPClient Location");
  }

  lemma KeyNamesPrint(k: Key)
    ensures IsKeyName(KeyName(k))
  {
    match k {
      case FT => FreeTrackKeyName();
      case NP => TrackIrKeyName();
    }
  }

  /** A wine that does not serve the first run does not serve the second. */
  predicate Steady(read: KeyRead) {
    !(read.query.NotServed? && read.probe.Served?)
  }

  /** What `user.reg` may say about a key, when nothing has the prefix open:
      never a wrong path and never a wrong absence. */
  predicate FileSays(slot: Slot, reading: Reading) {
    match reading
    case Absent => slot.None?
    case Plain(path) => slot.Some? && slot.value.ty == "REG_SZ" && slot.value.text == path
    case Other(_) => true
  }

  /** What `user.reg` says of a key when wine wrote the file: a value of another
      type, or a character in two halves, is refused before its text is looked
      at. */
  function FileReading(slot: Slot): (reading: Reading)
    ensures FileSays(slot, reading)
  {
    match slot
    case None => Absent
    case Some(v) =>
      if v.ty != "REG_SZ" || !UserReg.OneUnitEach(v.text) then Other(FileRejected)
      else UserReg.ReadText(v.text)
  }

  // -------------------------------------------------------------- the prefix

  /** The prefix as both commands see it. The record is a file in the directory. */
  datatype Prefix = Prefix(slots: PerKey<Slot>, dir: bool, record: Option<string>)

  predicate ValidPrefix(p: Prefix) {
    && ValidSlot(p.slots.ft) && ValidSlot(p.slots.np)
    && (p.record.Some? ==> p.dir)
  }

  /** What was done to a key, and what it destroyed. */
  datatype Effect =
    | Wrote(key: Key, before: Slot, path: string, forced: bool)
    | Deleted(key: Key, value: RegValue)

  /** A prefix, and everything this program ever did to its keys. */
  datatype World = World(prefix: Prefix, log: seq<Effect>)

  /** `read_record`: a file that cannot be read is no record. */
  function ReadRecord(p: Prefix, readable: bool): Record.Entries {
    Record.Parsed(if readable && p.record.Some? then p.record.value else "")
  }

  /** One `reg add` run. */
  function Write(w: World, k: Key, path: string, forced: bool, run: WineRun): World
    requires Registrable(path)
  {
    if run.Served? then
      World(w.prefix.(slots := w.prefix.slots.With(k, Some(OurValue(path)))),
            w.log + [Wrote(k, w.prefix.slots.At(k), path, forced)])
    else w
  }

  /** One `reg delete` run; of a key with no `Path` it fails. */
  function Delete(w: World, k: Key, run: WineRun): World {
    var slot := w.prefix.slots.At(k);
    if run.Served? && slot.Some? then
      World(w.prefix.(slots := w.prefix.slots.With(k, None)),
            w.log + [Deleted(k, slot.value)])
    else w
  }

  // ---------------------------------------------------------------- install

  datatype Copying = NoDirectory | Incomplete | Complete

  datatype InstallEnv = InstallEnv(
    recordRead: bool,
    settled: Option<PerKey<Reading>>,
    queries: PerKey<KeyRead>,
    copying: Copying,
    writes: PerKey<WineRun>,
    recordWritten: bool)

  datatype InstallOutcome =
    | Unregistrable
    | NotRead
    | Refused(taken: seq<Key>)
    | NotCopied
    | WineGone
    | NotRecorded
    | KeysNotWritten
    | Registered

  /** Both keys, from the file where it settles them and through wine if not. */
  function Readings(p: Prefix, settled: Option<PerKey<Reading>>, queries: PerKey<KeyRead>)
    : Result<PerKey<Reading>, ()>
    requires ValidPrefix(p)
  {
    if settled.Some? then Success(settled.value)
    else
      match ReadKey(FT, p.slots.ft, queries.ft)
      case Failure(_) => Failure(())
      case Success(ft) =>
        match ReadKey(NP, p.slots.np, queries.np)
        case Failure(_) => Failure(())
        case Success(np) => Success(PerKey(ft, np))
  }

  /** The keys among the first `n` that install stops on. */
  function TakenAmong(readings: PerKey<Reading>, record: Record.Entries, npTarget: string, n: nat)
    : seq<Key>
    requires n <= |KEYS|
  {
    if n == 0 then []
    else
      var k := KEYS[n - 1];
      var taken := TakenAmong(readings, record, npTarget, n - 1);
      if StopsInstall(readings.At(k), Record.Recorded(record, Name(k)), WantFor(k, npTarget))
      then taken + [k] else taken
  }

  function Taken(readings: PerKey<Reading>, record: Record.Entries, npTarget: string): seq<Key> {
    TakenAmong(readings, record, npTarget, |KEYS|)
  }

  /** The record merged with what landed in the first `n` keys. */
  function KeptAmong(record: Record.Entries, npTarget: string, writes: PerKey<WineRun>, n: nat)
    : Record.Entries
    requires n <= |KEYS|
  {
    if n == 0 then record
    else
      var k := KEYS[n - 1];
      var kept := KeptAmong(record, npTarget, writes, n - 1);
      if writes.At(k).Served? then Record.Upserted(kept, Name(k), WantFor(k, npTarget)) else kept
  }

  function Kept(record: Record.Entries, npTarget: string, writes: PerKey<WineRun>): Record.Entries {
    KeptAmong(record, npTarget, writes, |KEYS|)
  }

  lemma OwnDirectoryIsRegistrable()
    ensures Registrable(INSTALL_WIN_DIR)
  {
  }

  /** Both `reg add` runs, the second only if the first found a wine. */
  function WriteKeys(w: World, npTarget: string, forced: bool, writes: PerKey<WineRun>): World
    requires Registrable(npTarget)
  {
    OwnDirectoryIsRegistrable();
    var w1 := Write(w, FT, INSTALL_WIN_DIR, forced, writes.ft);
    if writes.ft.NotStarted? then w1 else Write(w1, NP, npTarget, forced, writes.np)
  }

  /** From the first `reg add` on. */
  function RegisterKeys(w: World, npTarget: string, forced: bool, env: InstallEnv)
    : (World, InstallOutcome)
    requires Registrable(npTarget)
  {
    var ft, np := env.writes.ft, env.writes.np;
    var w1 := WriteKeys(w, npTarget, forced, env.writes);
    if ft.NotStarted? || np.NotStarted? then (w1, WineGone)
    else if ft.NotServed? && np.NotServed? then (w1, KeysNotWritten)
    else if !env.recordWritten then (w1, NotRecorded)
    else
      var kept := Kept(ReadRecord(w.prefix, env.recordRead), npTarget, env.writes);
      var w2 := w1.(prefix := w1.prefix.(record := Some(Record.Rendered(kept))));
      (w2, if ft.Served? && np.Served? then Registered else KeysNotWritten)
  }

  /** `install`, from the reading of the keys on. */
  function DoInstall(w: World, source: NpSource, forced: bool, env: InstallEnv)
    : (World, InstallOutcome)
    requires ValidPrefix(w.prefix)
  {
    match NpTarget(source)
    case None => (w, Unregistrable)
    case Some(npTarget) =>
      match Readings(w.prefix, env.settled, env.queries)
      case Failure(_) => (w, NotRead)
      case Success(readings) =>
        var taken := Taken(readings, ReadRecord(w.prefix, env.recordRead), npTarget);
        if taken != [] && !forced then (w, Refused(taken))
        else if env.copying.NoDirectory? then (w, NotCopied)
        else
          var w1 := w.(prefix := w.prefix.(dir := true));
          if env.copying.Incomplete? then (w1, NotCopied)
          else
            TargetIsRegistrable(source);
            RegisterKeys(w1, npTarget, forced, env)
  }

  lemma TargetIsRegistrable(source: NpSource)
    ensures NpTarget(source).Some? ==>
      Registrable(NpTarget(source).value) && NpTarget(source).value != ""
      && !IsWhitespace(NpTarget(source).value[0])
  {
    OwnDirectoryIsRegistrable();
  }

  // -------------------------------------------------------------- uninstall

  datatype Outcome = Removed | Failed | NothingThere | Left(recorded: bool)

  /** How much of the directory `remove_dir_all` took. */
  datatype Removal = All | RecordAndMore | NotTheRecord

  datatype UninstallEnv = UninstallEnv(
    recordRead: bool,
    settled: Option<PerKey<Reading>>,
    queries: PerKey<KeyRead>,
    deletes: PerKey<WineRun>,
    rereads: PerKey<KeyRead>,
    removal: Removal)

  datatype UndoResult = Done(outcomes: seq<Outcome>) | Unreadable(outcomes: seq<Outcome>) | NoWine

  datatype UninstallOutcome = NoWineLeft | KeysUnread | StillRegistered | NotRemoved | Uninstalled

  /** What to report of keys none of which is to be removed; nothing otherwise. */
  function Settle(readings: PerKey<Reading>, record: Record.Entries, n: nat): Option<seq<Outcome>>
    requires n <= |KEYS|
  {
    if n == 0 then Some([])
    else
      var k := KEYS[n - 1];
      match Settle(readings, record, n - 1)
      case None => None
      case Some(outcomes) =>
        match UndoFor(readings.At(k), Record.Recorded(record, Name(k)))
        case Nothing => Some(outcomes + [NothingThere])
        case Leave(recorded) => Some(outcomes + [Left(recorded)])
        case Remove => None
  }

  /** `del_value`: whether the value is gone, or nothing when wine is. */
  function DeleteResult(w: World, k: Key, run: WineRun, reread: KeyRead): Option<bool>
    requires ValidPrefix(w.prefix)
  {
    match run
    case NotStarted => None
    case Served => Some(true)
    case NotServed => Some(ReadKey(k, w.prefix.slots.At(k), reread) == Success(Absent))
  }

  /** One turn of the loop of `undo_keys`: what it did to the key, or why it
      went no further. */
  datatype UndoTurn = Did(outcome: Outcome) | CannotRead | WineLost

  function UndoOn(w: World, verdict: Undo, k: Key, run: WineRun, reread: KeyRead)
    : (r: (World, UndoTurn))
    requires ValidPrefix(w.prefix)
    ensures ValidPrefix(r.0.prefix)
  {
    match verdict
    case Nothing => (w, Did(NothingThere))
    case Leave(recorded) => (w, Did(Left(recorded)))
    case Remove =>
      match DeleteResult(w, k, run, reread)
      case None => (w, WineLost)
      case Some(gone) => (Delete(w, k, run), Did(if gone then Removed else Failed))
  }

  function UndoWith(w: World, wrote: Option<string>, k: Key, read: KeyRead, run: WineRun,
                    reread: KeyRead): (r: (World, UndoTurn))
    requires ValidPrefix(w.prefix)
    ensures ValidPrefix(r.0.prefix)
  {
    match ReadKey(k, w.prefix.slots.At(k), read)
    case Failure(_) => (w, CannotRead)
    case Success(current) => UndoOn(w, UndoFor(current, wrote), k, run, reread)
  }

  function UndoKey(w: World, record: Record.Entries, env: UninstallEnv, k: Key)
    : (r: (World, UndoTurn))
    requires ValidPrefix(w.prefix)
    ensures ValidPrefix(r.0.prefix)
  {
    UndoWith(w, Record.Recorded(record, Name(k)), k,
             env.queries.At(k), env.deletes.At(k), env.rereads.At(k))
  }

  /** The loop of `undo_keys`, from key number `i` on. */
  function UndoFrom(w: World, record: Record.Entries, env: UninstallEnv, i: nat,
                    outcomes: seq<Outcome>): (World, UndoResult)
    requires ValidPrefix(w.prefix) && i <= |KEYS|
    decreases |KEYS| - i
  {
    if i == |KEYS| then (w, Done(outcomes))
    else
      match UndoKey(w, record, env, KEYS[i])
      case (w1, Did(outcome)) => UndoFrom(w1, record, env, i + 1, outcomes + [outcome])
      case (w1, CannotRead) => (w1, Unreadable(outcomes))
      case (w1, WineLost) => (w1, NoWine)
  }

  /** `undo_keys` */
  function UndoKeys(w: World, record: Record.Entries, env: UninstallEnv): (World, UndoResult)
    requires ValidPrefix(w.prefix)
  {
    if env.settled.Some? && Settle(env.settled.value, record, |KEYS|).Some?
    then (w, Done(Settle(env.settled.value, record, |KEYS|).value))
    else UndoFrom(w, record, env, 0, [])
  }

  /** `remove_dir_all` on the directory, when it is there. */
  function RemoveDirectory(p: Prefix, removal: Removal): (Prefix, UninstallOutcome) {
    if !p.dir then (p, Uninstalled)
    else
      match removal
      case All => (p.(dir := false, record := None), Uninstalled)
      case RecordAndMore => (p.(record := None), NotRemoved)
      case NotTheRecord => (p, NotRemoved)
  }

  /** `uninstall` */
  function DoUninstall(w: World, env: UninstallEnv): (World, UninstallOutcome)
    requires ValidPrefix(w.prefix)
  {
    match UndoKeys(w, ReadRecord(w.prefix, env.recordRead), env)
    case (w1, NoWine) => (w1, NoWineLeft)
    case (w1, Unreadable(_)) => (w1, KeysUnread)
    case (w1, Done(outcomes)) =>
      if Failed in outcomes then (w1, StillRegistered)
      else
        var (p, outcome) := RemoveDirectory(w1.prefix, env.removal);
        (w1.(prefix := p), outcome)
  }

  // ----------------------------------------------------- the two as commands

  /** One prefix on disk, with both commands as they change it. */
  class PrefixOnDisk {
    var slots: PerKey<Slot>
    var dir: bool
    var record: Option<string>
    ghost var log: seq<Effect>

    ghost function State(): World
      reads this
    {
      World(Prefix(slots, dir, record), log)
    }

    constructor (slots: PerKey<Slot>, dir: bool, record: Option<string>)
      ensures State() == World(Prefix(slots, dir, record), [])
    {
      this.slots, this.dir, this.record, log := slots, dir, record, [];
    }

    /** `set_key`: whether the write landed, or nothing when wine is gone. */
    method SetKey(k: Key, path: string, forced: bool, run: WineRun) returns (landed: Option<bool>)
      requires Registrable(path)
      modifies this
      ensures State() == Write(old(State()), k, path, forced, run)
      ensures landed == if run.NotStarted? then None else Some(run.Served?)
    {
      if run.NotStarted? {
        return None;
      }
      if run.Served? {
        log := log + [Wrote(k, slots.At(k), path, forced)];
        slots := slots.With(k, Some(OurValue(path)));
      }
      return Some(run.Served?);
    }

    method DelValue(k: Key, run: WineRun, reread: KeyRead) returns (gone: Option<bool>)
      requires ValidPrefix(State().prefix)
      modifies this
      ensures State() == Delete(old(State()), k, run)
      ensures gone == DeleteResult(old(State()), k, run, reread)
    {
      if run.NotStarted? {
        return None;
      }
      if run.Served? {
        if slots.At(k).Some? {
          log := log + [Deleted(k, slots.At(k).value)];
          slots := slots.With(k, None);
        }
        return Some(true);
      }
      return Some(ReadKey(k, slots.At(k), reread) == Success(Absent));
    }

    method Install(source: NpSource, forced: bool, env: InstallEnv)
      returns (outcome: InstallOutcome)
      requires ValidPrefix(State().prefix)
      modifies this
      ensures (State(), outcome) == DoInstall(old(State()), source, forced, env)
    {
      var np := NpTarget(source);
      if np.None? {
        return Unregistrable;
      }
      TargetIsRegistrable(source);
      OwnDirectoryIsRegistrable();
      var npTarget := np.value;
      var readable := Prefix(slots, dir, record);
      var known := ReadRecord(readable, env.recordRead);
      var read := Readings(readable, env.settled, env.queries);
      if read.Failure? {
        return NotRead;
      }
      var taken: seq<Key> := [];
      for i := 0 to |KEYS|
        invariant taken == TakenAmong(read.value, known, npTarget, i)
        invariant State() == old(State())
      {
        var k := KEYS[i];
        if StopsInstall(read.value.At(k), Record.Recorded(known, Name(k)), WantFor(k, npTarget)) {
          taken := taken + [k];
        }
      }
      if taken != [] && !forced {
        return Refused(taken);
      }
      if env.copying.NoDirectory? {
        return NotCopied;
      }
      dir := true;
      if env.copying.Incomplete? {
        return NotCopied;
      }
      outcome := Register(npTarget, forced, env, known);
    }

    method Register(npTarget: string, forced: bool, env: InstallEnv, known: Record.Entries)
      returns (outcome: InstallOutcome)
      requires Registrable(npTarget) && known == ReadRecord(State().prefix, env.recordRead)
      modifies this
      ensures (State(), outcome) == RegisterKeys(old(State()), npTarget, forced, env)
    {
      OwnDirectoryIsRegistrable();
      var ft := SetKey(FT, INSTALL_WIN_DIR, forced, env.writes.ft);
      if ft.None? {
        return WineGone;
      }
      var np := SetKey(NP, npTarget, forced, env.writes.np);
      if np.None? {
        return WineGone;
      }
      var kept := known;
      ghost var written := State();
      for i := 0 to |KEYS|
        invariant kept == KeptAmong(known, npTarget, env.writes, i)
        invariant State() == written
      {
        var k := KEYS[i];
        if (if k == NP then np.value else ft.value) {
          kept := Record.Upsert(kept, Name(k), WantFor(k, npTarget));
        }
      }
      if ft.value || np.value {
        if !env.recordWritten {
          return NotRecorded;
        }
        var text := Record.RenderRecord(kept);
        record := Some(text);
      }
      return if ft.value && np.value then Registered else KeysNotWritten;
    }

    method Undo(known: Record.Entries, env: UninstallEnv) returns (result: UndoResult)
      requires ValidPrefix(State().prefix)
      modifies this
      ensures (State(), result) == UndoKeys(old(State()), known, env)
    {
      if env.settled.Some? {
        var settled := Settle(env.settled.value, known, |KEYS|);
        if settled.Some? {
          return Done(settled.value);
        }
      }
      var outcomes: seq<Outcome> := [];
      for i := 0 to |KEYS|
        invariant ValidPrefix(State().prefix)
        invariant UndoFrom(State(), known, env, i, outcomes)
               == UndoFrom(old(State()), known, env, 0, [])
      {
        var k := KEYS[i];
        var current := ReadKey(k, slots.At(k), env.queries.At(k));
        if current.Failure? {
          return Unreadable(outcomes);
        }
        match UndoFor(current.value, Record.Recorded(known, Name(k))) {
          case Nothing => outcomes := outcomes + [NothingThere];
          case Leave(recorded) => outcomes := outcomes + [Left(recorded)];
          case Remove =>
            var gone := DelValue(k, env.deletes.At(k), env.rereads.At(k));
            if gone.None? {
              return NoWine;
            }
            outcomes := outcomes + [if gone.value then Removed else Failed];
        }
      }
      return Done(outcomes);
    }

    method Uninstall(env: UninstallEnv) returns (outcome: UninstallOutcome)
      requires ValidPrefix(State().prefix)
      modifies this
      ensures (State(), outcome) == DoUninstall(old(State()), env)
    {
      var result := Undo(ReadRecord(Prefix(slots, dir, record), env.recordRead), env);
      match result {
        case NoWine => return NoWineLeft;
        case Unreadable(_) => return KeysUnread;
        case Done(outcomes) =>
          if Failed in outcomes {
            return StillRegistered;
          }
          if !dir {
            return Uninstalled;
          }
          match env.removal {
            case All =>
              dir, record := false, None;
              return Uninstalled;
            case RecordAndMore =>
              record := None;
              return NotRemoved;
            case NotTheRecord =>
              return NotRemoved;
          }
      }
    }
  }
}
