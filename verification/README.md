# What `tobii bridge` may touch, what an `Exec` line means, and who may write the shared heap

This project models, in Dafny, the parts of the Tobii Linux tree where being a
little wrong costs somebody else something.

* **The registry contract of `tobii bridge`** (`Record`, `RegQuery`,
  `RegQueryMeaning`, `UserReg`, `Bridge`, `BridgeRuns`, `OwnRuns`, `Outcomes`,
  `Exactness`, `FastPath`, `Decisions`, `Status`, `Flags`, `Folding`). Two discovery keys, a record file and a
  directory; `install` and `uninstall` as the methods of a class that changes
  them; two readers of a key, one of what wine prints and one of the prefix's own
  `user.reg`; every read of wine and every write through it may fail; other
  programs write the same keys between commands. A log, kept by the specification
  alone, says what was ever written or deleted and what it destroyed.
* **The autostart entry's `Exec` line** (`DesktopEntry`, `ExecGrammar`,
  `ExecRoundTrip`), against sections 3, 4 and 7 of the freedesktop.org Desktop
  Entry Specification. The reader is sound and complete for a grammar of
  derivation trees over the two escaping layers, a value has one derivation at
  most, and what the writer writes is read back.
* **The `FT_SharedMem` feeder protocol** (`SharedHeap`, `FeederProtocol`,
  `FeederInvariants`, `FeederTheorems`, `FeederCounter`, `FeederFrames`). Processes in any number of wineserver
  sessions bind one host-wide port, make and open named objects that live as
  long as a handle on them, copy byte by byte, and exit at any step.

`Text`, `Octets` and `Wrappers` are the few string operations, the byte type and
the option and result types the rest is written with.

Loops of the source are methods with loops here, and objects whose fields the
source changes in place are classes; each is proved equal to a function, and the
properties are proved of the functions.

## Main results

* Over every run of installs, uninstalls and other programs' writes, nothing is
  destroyed unforced that cannot be accounted for, and every line of the record
  names a value this program put in that very key (`BridgeRuns.RunsAreSound`);
  the text of a destroyed value accounts for it exactly when it is ASCII
  (`Exactness.ByItsOwnText`).
* Over every run of this program's own commands, whatever registry writes fail:
  when exactly an install is refused over what this program wrote
  (`OwnRuns.RefusedOverOwnExactly`), what exactly an uninstall that succeeds
  leaves (`OwnRuns.UninstallLeavesExactly`), and that neither ever happens while
  no client path with a control character was registered (`OwnRuns.PlainRuns`).
* For every world and every failure: the directory and the record go last, and
  only when the file showed no key of ours or each key was read and cleared
  (`Outcomes.DirectoryGoesLast`, `Outcomes.UninstallMeans`,
  `Outcomes.NoKeyOutlivesTheDirectory`); an install changes no key before all else
  is in place (`Outcomes.InstallLeaves`), and registers exactly under one condition
  (`Outcomes.RegisteredExactly`).
* Asking the prefix's file before wine changes what an uninstall does exactly
  when the file shows no key of ours and wine would have shown one
  (`FastPath.FastPathDiffersExactly`), and whatever the record, never, exactly
  when the file shows our directory or reads every path wine reads
  (`FastPath.NeverDifferExactly`).
* Told of what the keys hold, which keys an install refuses over and an uninstall
  empties, read from the file or through wine (`Decisions.RefusedExactly`,
  `Decisions.UndoneExactly`); `status` foretells both
  (`Status.ReportForetellsRefusal`, `Status.ReportForetellsUninstall`).
* What each text means is said of its characters, both ways: an output of wine
  (`RegQueryMeaning.RegQueryExactly`), a value of `user.reg`
  (`UserReg.ReadStringExactly`), a record (`Record.ParsedSaysExactly`), a command
  line (`Flags.AcceptedExactly`, `Flags.GateRefusesExactly`).
* The flag reader and the gate: the reader comes to the flag a parse comes to,
  exactly when it is spelled with two dashes and no value before it is spelled
  like it (`Flags.ReaderFindsExactly`).
* An `Exec` line is read as its arguments exactly when the grammar of both layers
  derives them, in one way only (`ExecRoundTrip.ReadsExactlyOneDerivableExec`,
  `ExecGrammar.DerivationIsUnique`); every path the writer writes is read back, or
  is one of the two kinds that are not (`ExecRoundTrip.EntryReadsBack`).
* In every reachable state of the feeder protocol one process at most can publish
  (`FeederTheorems.OnePublisher`), a takeover reaches the mapping a consumer
  cached (`FeederTheorems.TakeoverReachesCache`), a read with the mutex shows the
  bytes with which the copy was begun that ended last there
  (`FeederFrames.HeldReadShowsLastFrame`), and two frames show one
  counter exactly when their processes had called `publish` equally often, up to
  whole turns (`FeederCounter.CounterRepeatsExactly`).

## Where the code and its comments disagree, or a promise has a limit

Each of these is a lemma about the code as it is.

* The guard on client paths refuses line breaks and what is not ASCII, and lets a
  tab or any other control character through (`OwnRuns.TabIsAccepted`). Wine
  prints such a path and it is read back; the file's reader refuses it. So an
  install whose every write landed is in the way of the next one that reads the
  file (`OwnRuns.InOwnWayAtControl`), and where the FreeTrack key was not written,
  an uninstall reports success and leaves the client's value behind
  (`OwnRuns.LeftBehindAtControl`). Nothing else in a run of this program's own
  does either (`OwnRuns.RefusedOverOwnExactly`, `OwnRuns.UninstallLeavesExactly`).
* Where the record cannot be written, the next install of another path is refused,
  whatever the path is spelled with (`OwnRuns.UnrecordedPathIsRefused`).
* A destroyed value is accounted for by its own text exactly when that text is
  ASCII (`Exactness.ByItsOwnText`): wine prints any other text in a codepage that
  may make it look like ours (`Exactness.LossyCodepage`).
* A wine that fails the first of the two runs of a reading and serves the second
  makes a present value read as absent, exactly then
  (`BridgeRuns.WineReadingIsTruthful`, `Exactness.UnsteadyReadOverwrites`).
* The file and wine read an ASCII value differently exactly when it is one line
  and holds a control character or starts with a space
  (`FastPath.FileAndWineAgree`), so the early return of `uninstall` can leave a
  value the slow path removes (`FastPath.SpaceTellsThemApart`).
* Section 7 of the Desktop Entry Specification reserves the parentheses too; the
  code's list of reserved characters does not have them, and a word with one is
  read as it is (`ExecRoundTrip.ParenthesesAreRead`).
* A path with a line feed in it is written into the autostart entry and read back
  as nothing (`ExecRoundTrip.EntryReadsBack`).
* An install line printed for a prefix off Steam names a title instead exactly
  when a token of it before the last is spelled `--steam`
  (`Status.NamesThePrefix`), as the prefix's own path may be
  (`Status.PrefixSpelledSteam`).
* A flag spelled with one dash is accepted and never seen
  (`Flags.OneDashIsNeverSeen`), and a value spelled like a flag is taken for it
  (`Flags.ValueTakenForFlag`).
* `AlreadyTaken` is documented as proof that a process of this session holds the
  port; it is not, in a run given step by step (`FeederTheorems.TakenIsNoProof`),
  and a library that once opened the mapping always reports it
  (`FeederTheorems.OwnCacheLooksTaken`). What each report does tell is
  `FeederTheorems.ProbeSays`.
* The counter is documented never to repeat consecutively. One process keeps to
  that until it has called `publish` 536870911 times between two frames
  (`FeederCounter.OneProcessRepeats`); across a takeover it repeats whenever both
  processes had called it equally often, and a run is given in which both show 1
  (`FeederCounter.TakeoverRepeats`).

## Model

| member | source | states |
|---|---|---|
| DesktopEntry.QuoteExec | crates/tobii-config/src/autostart.rs:79-104 | the loop writes exactly the argument with each character escaped through both layers, between double quotes |
| DesktopEntry.UnescapeValue | crates/tobii-config/src/autostart.rs:159-177 | the loop undoes the five string escapes and refuses every other backslash |
| DesktopEntry.NextArgument | crates/tobii-config/src/autostart.rs:202-232 | the inner loop reads one argument, quoted stretches and all, and stops right after its separator, or refuses |
| DesktopEntry.SkipWhitespace | crates/tobii-config/src/autostart.rs:197 | before an argument every kind of whitespace is skipped, not only the separators |
| Text.WhitespaceExactly | crates/tobii-config/src/autostart.rs:197 | whitespace is exactly the twenty-five code points with the Unicode `White_Space` property |
| DesktopEntry.SplitArguments | crates/tobii-config/src/autostart.rs:193-236 | the nested loops give the arguments in order, or nothing when one is refused or the first is empty |
| DesktopEntry.FindExec | crates/tobii-config/src/autostart.rs:127-151 | the line loop finds the one `Exec` value of the `[Desktop Entry]` groups; with none or two it finds nothing |
| DesktopEntry.ReadExecArguments | crates/tobii-config/src/autostart.rs:126-153 | the whole reader is scanner, escapes and tokenizer in turn |
| ExecGrammar.ReadsExactlyTheGrammar | crates/tobii-config/src/autostart.rs:159-236 | a value is read as `args` if and only if some derivation over the two layers spells it and means `args`; the grammar has its own tables of escapes, reserved characters and separators, and its own account of `%%` |
| ExecGrammar.UndoubledExactly | crates/tobii-config/src/autostart.rs:232 | of two percent signs in a row, from the left, one is left, and a percent sign of its own, as in a field code, stays |
| ExecGrammar.DerivationIsUnique | crates/tobii-config/src/autostart.rs:159-236 | all derivations of one value are the same tree in both layers, and so mean the same arguments |
| ExecRoundTrip.ReadsExactlyOneDerivableExec | crates/tobii-config/src/autostart.rs:111-153 | sound and complete: arguments are returned exactly when, of the lines whose nearest group line above is `[Desktop Entry]`, exactly one gives `Exec`, and its value derives them |
| ExecRoundTrip.OtherGroupsNeverMatter | crates/tobii-config/src/autostart.rs:129-138 | deleting a line of another group, a group header excepted, never changes what is read |
| ExecRoundTrip.QuotedArgumentsReadBack | crates/tobii-config/src/autostart.rs:79-236 | any list of arguments, quoted and joined with spaces, is read back as it is, unless its first is empty or missing, which is refused |
| ExecRoundTrip.UnterminatedIsRefused | crates/tobii-config/src/autostart.rs:229-231 | an opening quote with escaped text after it and no closing quote is refused, whatever the text |
| ExecRoundTrip.ReservedIsNeverRead | crates/tobii-config/src/autostart.rs:179-231 | a value with any of the thirteen reserved characters outside double quotes is never read |
| ExecRoundTrip.ParenthesesAreRead | crates/tobii-config/src/autostart.rs:179-184 | a word with parentheses is read, though the specification reserves them |
| ExecRoundTrip.EntryReadsBack | crates/tobii-config/src/autostart.rs:51-66 | the entry written for a path is read back as the path and `--background` if the path is not empty and has no line feed, and as nothing otherwise |
| RegQuery.ReadRegQuery | crates/tobii-cli/src/bridge.rs:933-1025 | the chunk loop with its running offset reads what the line-by-line specification reads |
| RegQuery.WineOutputIsRead | crates/tobii-cli/src/bridge.rs:933-1025 | for every value and type token in wine's output shape, what exactly the reader makes of it |
| RegQuery.PresentIsNeverAbsent | crates/tobii-cli/src/bridge.rs:924-932 | a printed value is never read as absent, and is read as a path exactly when it is one `REG_SZ` line of ASCII with something after the leading whitespace |
| RegQuery.OwnPathIsReadBack | crates/tobii-cli/src/bridge.rs:1422-1458 | an ASCII client path is read back as itself exactly when it has no line feed, and the guard admits no path with one |
| RegQuery.RegistrablePathExactly | crates/tobii-cli/src/bridge.rs:1442-1458 | a directory is accepted exactly when it is ASCII without a line break, and is registered as `Z:` and itself with a backslash for each slash |
| RegQueryMeaning.ReadLineExactly | crates/tobii-cli/src/bridge.rs:963-1022 | what one line gives, told of its characters: whitespace, `Path`, whitespace, a type, whitespace, the value, up to a byte that is not ASCII or one carriage return |
| RegQueryMeaning.RegQueryExactly | crates/tobii-cli/src/bridge.rs:933-1025 | of any output at all: an absence exactly when no line of it is a value's, and otherwise what the first that is gives, broken unless nothing but the closing blank line follows |
| UserReg.Unescape | crates/tobii-config/src/userreg.rs:453-502 | the loop undoes every escape the decoding specification knows, digits taken greedily, and refuses the rest |
| UserReg.EscapeDigits | crates/tobii-config/src/userreg.rs:510-540 | the digit loop takes every digit there is up to the most the escape holds, and gives their character unless they name half of a pair |
| UserReg.FindEndOfString | crates/tobii-config/src/userreg.rs:236-260 | the loop finds the closing quote, a backslash taking whatever follows it along |
| UserReg.SpelledIsDecoded | crates/tobii-config/src/userreg.rs:453-540 | however the characters of a text are spelled, bare, by letter or by number, and as long as no digits run on, it is decoded to that text |
| UserReg.StringIsRead | crates/tobii-config/src/userreg.rs:364-418 | such a value in quotes, with blanks after it, is read as its text if that is not empty and has neither line break nor control character, and refused for the first of these reasons otherwise |
| UserReg.EveryTextIsSpelled | crates/tobii-config/src/userreg.rs:453-540 | every text without a character of two UTF-16 units has such a spelling |
| UserReg.ReadStringExactly | crates/tobii-config/src/userreg.rs:364-418 | whatever follows the opening quote is read exactly when it is such a spelling, a closing quote and blanks, and as what is made of the text spelled |
| UserReg.ReadTextExactly | crates/tobii-config/src/userreg.rs:388-416 | a text is read as itself exactly when it is not empty and no code in it is below 0x20 or from 0x7F to 0x9F |
| UserReg.LettersExactly | crates/tobii-config/src/userreg.rs:465-479 | the twelve letters that stand for a character, with its code |
| UserReg.DigitsExactly | crates/tobii-config/src/userreg.rs:510-531 | which characters are digits in base 16 and 8, and what each is worth |
| UserReg.NumberExactly | crates/tobii-config/src/userreg.rs:527-539 | the number of the digits is theirs in base 16 or 8, and its character the one of that code unless it is half of a pair |
| Record.Upsert | crates/tobii-cli/src/bridge.rs:1353-1358 | the first entry of the name is replaced in its place, or one is added at the end, and nothing else changes |
| Record.RenderRecord | crates/tobii-cli/src/bridge.rs:1300-1313 | the header and one line for each entry, in order |
| Record.ParseRecord | crates/tobii-cli/src/bridge.rs:1320-1338 | the line loop upserts every line it understands, in order |
| Record.ParsedLineExactly | crates/tobii-cli/src/bridge.rs:1322-1336 | a line says something exactly when it is a name, ` wrote ` and the rest, the name not starting with `#`, before any carriage returns |
| Record.ParsedSaysExactly | crates/tobii-cli/src/bridge.rs:1320-1346 | of any text: what is read out of it for a name is what the last line about that name says, and nothing if there is none |
| Record.RenderedParsesBack | crates/tobii-cli/src/bridge.rs:1295-1338 | a printed record is parsed as its entries upserted from left to right, spaces in values and all |
| Record.LastEntryWins | crates/tobii-cli/src/bridge.rs:1348-1358 | after upserting entries in turn, a name stands for what its last entry says |
| Record.RecordReadsBack | crates/tobii-cli/src/bridge.rs:1300-1338 | a record with one entry for each name is written and read back whole |
| Record.ParsedIsNormal | crates/tobii-cli/src/bridge.rs:1315-1338 | whatever text is parsed, the result has one recordable entry for each name and survives being rewritten |
| Bridge.PrefixOnDisk.SetKey | crates/tobii-cli/src/bridge.rs:2055-2070 | the key holds the path exactly when wine served the write; nothing else changes |
| Bridge.PrefixOnDisk.DelValue | crates/tobii-cli/src/bridge.rs:2127-2137 | the value is gone when wine served the delete, and a refused delete is success only if a second reading finds the key absent |
| Bridge.PrefixOnDisk.Install | crates/tobii-cli/src/bridge.rs:1804-1890 | the whole new state and outcome of `install`, from the target it settles on through the loop over taken keys to the files |
| Bridge.PrefixOnDisk.Register | crates/tobii-cli/src/bridge.rs:1946-2004 | the whole new state and outcome of the two key writes and the merged record |
| Bridge.PrefixOnDisk.Undo | crates/tobii-cli/src/bridge.rs:2390-2437 | the whole new state and outcome of `undo_keys`: the early return and the loop that may stop half way |
| Bridge.PrefixOnDisk.Uninstall | crates/tobii-cli/src/bridge.rs:2454-2483 | the whole new state and outcome of `uninstall`, the directory last and only if no key failed |
| Text.EqIgnoreAsciiCase | crates/tobii-cli/src/bridge.rs:1224-1226 | two paths are the same exactly when they are as long and at each place have the same character, or a letter `A` to `Z` and the one 32 codes after it |
| BridgeRuns.WineReadingIsTruthful | crates/tobii-cli/src/bridge.rs:1037-1059 | one reading through wine is no lie about the key if and only if the same wine served both of its runs, or the key is empty |
| BridgeRuns.OursIsAccounted | crates/tobii-cli/src/bridge.rs:1214-1248 | a key that reads as ours holds our own directory or a path landed in that key before |
| BridgeRuns.InstallIsSound | crates/tobii-cli/src/bridge.rs:1804-1981 | `install`, forced or not, failing or not, keeps every unforced destruction accounted for and every recorded line true |
| BridgeRuns.UninstallIsSound | crates/tobii-cli/src/bridge.rs:2390-2483 | so does `uninstall`, wherever it stops |
| BridgeRuns.RunsAreSound | crates/tobii-cli/src/bridge.rs:1243-1293 | over every run: what was destroyed unforced was our directory, something landed in that key, or the value being written; and every recorded value was landed in its key |
| OwnRuns.KeptRecords | crates/tobii-cli/src/bridge.rs:1967-1981 | a key whose write failed keeps its older line in the record, a key whose write landed has the new one |
| OwnRuns.RefusedOverOwnExactly | crates/tobii-cli/src/bridge.rs:1804-1866 | starting from empty keys, after any of this program's own commands with any registry writes failing: an install that can read the keys is refused if and only if it is unforced and the TrackIR key holds its own client path which, read from the file, has a control character, or, read through wine, is neither recorded, nor our directory, nor, in a key without a record, about to be written |
| OwnRuns.UninstallLeavesExactly | crates/tobii-cli/src/bridge.rs:2390-2483 | in such a run an uninstall that succeeds leaves neither FreeTrack key nor record nor directory, and leaves the TrackIR key exactly when its path is neither recorded nor our directory, or has a control character while the file was asked first and the FreeTrack key is empty |
| OwnRuns.PlainRuns | crates/tobii-cli/src/bridge.rs:1442-1458 | as long as no client path with a control character was registered, no install is refused and an uninstall that succeeds leaves nothing |
| OwnRuns.TabIsAccepted | crates/tobii-cli/src/bridge.rs:1442-1458 | the guard accepts a directory with a tab in its name |
| OwnRuns.InOwnWayAtControl | crates/tobii-cli/src/bridge.rs:1804-1866 | after an install registered a client path with a control character, every unforced install that reads the file is refused over the TrackIR key and changes nothing |
| OwnRuns.LeftBehindAtControl | crates/tobii-cli/src/bridge.rs:2401-2483 | where its FreeTrack write failed, the uninstall that reads the file reports success and leaves the client's value alone in the prefix |
| OwnRuns.InstallThenUninstall | crates/tobii-cli/src/bridge.rs:1804-2041 | from absent keys, an install that says it registered both did, for any accepted client path, and the uninstall after it, whichever reader it asks first, leaves nothing when it succeeds, which it does when wine serves it |
| OwnRuns.UnrecordedPathIsRefused | crates/tobii-cli/src/bridge.rs:1977-1981 | after an install whose record could not be written, the next unforced one is refused exactly when it would write another path, or reads the file and the path has a control character |
| Outcomes.RecordSaysExactly | crates/tobii-cli/src/bridge.rs:1320-1346 | what a command knows a key by is what the last line of the record about `ft` or `np` says, where there is a record and it can be read |
| Outcomes.DirectoryGoesLast | crates/tobii-cli/src/bridge.rs:2454-2483 | an uninstall that ends before the directory leaves it and the record as they were, and comes to it exactly when no key failed |
| Outcomes.UninstallMeans | crates/tobii-cli/src/bridge.rs:2390-2483 | for each outcome what the keys hold: where it came to the directory, the file showed no key of ours, or each was read and cleared; where it says still registered, a key of ours was refused to be deleted and is there |
| Outcomes.NoKeyOutlivesTheDirectory | crates/tobii-cli/src/bridge.rs:2450-2483 | where the directory is gone and wine was asked, each key could be read, and one read as ours is empty |
| Outcomes.ServedUninstallEnds | crates/tobii-cli/src/bridge.rs:2454-2483 | an uninstall wine serves succeeds whatever the keys hold |
| Outcomes.InstallLeaves | crates/tobii-cli/src/bridge.rs:1804-1990 | for each outcome what install leaves: a refusal or a failed reading changes nothing, a failed copy no key, and after that each key holds the new path exactly if its write landed, the directory being there |
| Outcomes.RegisteredExactly | crates/tobii-cli/src/bridge.rs:1804-1990 | install registers exactly when the client is accepted, the keys can be read, none stops it or it is forced, and copying, both writes and the record succeed |
| Exactness.ByItsOwnText | crates/tobii-cli/src/bridge.rs:906-917 | in every run a destroyed value is accounted for by its own text if and only if that text is ASCII |
| Exactness.LossyCodepage | crates/tobii-cli/src/bridge.rs:906-917 | a text wine prints as the recorded path is deleted, whatever it is |
| Exactness.UnsteadyReadOverwrites | crates/tobii-cli/src/bridge.rs:1037-1047 | a wine that serves only the second run of the readings makes an unforced install overwrite a stranger's value |
| FastPath.EarlyReturn | crates/tobii-cli/src/bridge.rs:2401-2415 | the file stops `uninstall` early exactly when it shows no key of ours |
| FastPath.FastPathRefines | crates/tobii-cli/src/bridge.rs:2395-2436 | where wine can read both keys, asking the file first changes neither keys nor report if and only if the file shows a key to remove or gives both the verdicts wine would |
| FastPath.FileAndWineAgree | crates/tobii-cli/src/bridge.rs:1131-1140 | for a `REG_SZ` value of ASCII, what the file's reader makes of it is what wine's reader makes of what wine prints exactly when it is empty, has a line feed, or has no control character and does not start with a space |
| FastPath.FastPathDiffersExactly | crates/tobii-cli/src/bridge.rs:2395-2436 | told of the keys' contents: asking the file first changes keys or report if and only if the file shows no key of ours and wine shows one |
| FastPath.NeverDifferExactly | crates/tobii-cli/src/bridge.rs:2395-2436 | asking the file first changes nothing whatever the record says, if and only if the file shows our own directory in a key or reads every path wine reads as the same path |
| FastPath.SpaceTellsThemApart | crates/tobii-cli/src/bridge.rs:2401-2436 | over our own directory behind a space, which the file's reader reads as another path, the early return leaves the key and the loop empties it |
| Decisions.RefusedExactly | crates/tobii-cli/src/bridge.rs:1273-1293 | told of the keys' contents, whether read from the file or through a wine that serves: an install is refused over a key exactly when it is unforced and the key holds a value that reads neither like our directory nor like the recorded path nor, without a record, like the path about to be written |
| Decisions.UndoneExactly | crates/tobii-cli/src/bridge.rs:2306-2436 | an uninstall wine serves empties exactly the keys whose value prints like our directory or the recorded path, leaves the rest as it is, and reports so; but empties none where it asked the file first and that shows no such key |
| Decisions.RegisteredMeans | crates/tobii-cli/src/bridge.rs:1946-1981 | an install that says it registered the keys left the directory, both keys and both recorded lines as asked, whatever was there before: the same path in both keys for our own client, and the spelled-out directory for another |
| Decisions.DecisionsIgnoreCase | crates/tobii-cli/src/bridge.rs:1224-1226 | no decision changes with the case of a letter of the value found, recorded or wanted |
| Status.ReportForetellsRefusal | crates/tobii-cli/src/bridge.rs:2933-3052 | with nothing of ours in it, a report predicts a refusal, and over which keys, exactly when an unforced install on the same readings makes one |
| Status.ReportForetellsUninstall | crates/tobii-cli/src/bridge.rs:2484-2514 | where wine reads what the report read, a key is emptied by the uninstall that follows if and only if the report called it ours, whether the uninstall first asks the file the report was read from or cannot |
| Status.ToUndoExactly | crates/tobii-cli/src/bridge.rs:2933-2937 | the report closes with how to undo an install exactly when the directory is there, or may be, or the uninstall that follows would empty a key |
| Status.UnreadClosesSo | crates/tobii-cli/src/bridge.rs:2933-3040 | where neither key could be read, it does so for the directory alone, and otherwise says that neither was read |
| Status.RefusedOverWineExactly | crates/tobii-cli/src/bridge.rs:1725-1735 | install is refused over its wine exactly in a prefix found by title whose own wine was not chosen, with no `--force` on the line and no `--wine` before its end; and exactly for such a report without a wine does its line ask for one |
| Status.PrintedLinesPass | crates/tobii-cli/src/bridge.rs:2948-3052 | every install line a report prints passes the gate; it names the prefix of the report if and only if that was found by title or no token before the last is spelled `--steam`, and is then not refused over its wine |
| Status.FirstFlagIsRead | crates/tobii-cli/src/bridge.rs:713-724 | the title or the path the line gives its prefix by is read back from its first flag, whatever it is spelled |
| Status.NamesThePrefix | crates/tobii-cli/src/bridge.rs:713-724 | the same condition for any install line of any report, and where it fails the line names a title |
| Status.ClientReadsBack | crates/tobii-cli/src/bridge.rs:2962-2968 | the reader comes to the client flag of the line, or to the end where there is none, if and only if no value before it is spelled `--npclient`, and then reads the client the report was decided against |
| Status.WineReadsBack | crates/tobii-cli/src/bridge.rs:2948-2983 | likewise for the wine: the one the report was given, or the one the user is asked for, or none |
| Status.ForcedExactly | crates/tobii-cli/src/bridge.rs:3010-3052 | the line ends in `--force` when keys are in the way, and otherwise has it only as the value of another flag |
| Status.PrefixSpelledSteam | crates/tobii-cli/src/bridge.rs:2948-2983 | a prefix path spelled `--steam` makes a printed line that asks for a title, the token after it |
| Flags.RejectUnknownFlags | crates/tobii-cli/src/bridge.rs:3305-3334 | the iterator loop refuses, for the first reason met, what the left-to-right specification refuses |
| Flags.AcceptedExactly | crates/tobii-cli/src/bridge.rs:3276-3334 | accepted lines are exactly those of known flags, each spelled with dashes and no `=`, with a value just when it is not `--force`, and are so in one way only |
| Flags.GateRefusesExactly | crates/tobii-cli/src/bridge.rs:3305-3334 | a line is refused exactly when it is known flags up to a token that cannot be the next, and for the reason that token gives: no dash, a `=`, an unknown name, or a value that is missing |
| Flags.NameExactly | crates/tobii-cli/src/bridge.rs:3325 | the name of a token is what follows its leading dashes, all of them |
| Flags.ReaderExactly | crates/tobii-cli/src/main.rs:1626-1629 | over the flags of a line: the first token spelled like a flag is where a parse finds the first flag of that name, or the end where there is none, if and only if that flag is spelled so and no value before it is |
| Flags.ReaderFindsExactly | crates/tobii-cli/src/main.rs:1626-1629 | the same of a whole accepted line: if and only if, besides, none of the three words before the flags is spelled so |
| Flags.ReaderAgrees | crates/tobii-cli/src/main.rs:1626-1629 | where it comes to the same token, it returns what a parse assigns first |
| Flags.StandingFlagExactly | crates/tobii-cli/src/bridge.rs:1867-1869 | looking for a flag without a value anywhere on an accepted line tells whether it was given if and only if, a stray token being spelled like it, it was given, or, none being, it has two dashes once where it was given |
| Flags.OneDashIsNeverSeen | crates/tobii-cli/src/bridge.rs:3325-3328 | a flag with one dash is accepted and assigned, and the reader finds nothing |
| Flags.ValueTakenForFlag | crates/tobii-cli/src/bridge.rs:3302-3304 | a value spelled like a flag is accepted, and the reader takes it and the token after it |
| Folding.Wrapped | crates/tobii-cli/src/bridge.rs:314-336 | the word loop prints the lines of the greedy folding, each under the indent |
| Folding.PrintedExactly | crates/tobii-cli/src/bridge.rs:307-336 | every line, the last one too, is printed after the indent, with a line feed between two of them and nowhere else |
| Folding.JoinedExactly | crates/tobii-cli/src/bridge.rs:329-333 | a line is its words with one space between two of them |
| Folding.FoldsToFewest | crates/tobii-cli/src/bridge.rs:307-336 | the words stay in order, no line of two words or more is wider than the width, and no folding that keeps to that has fewer lines |
| Folding.FoldingKeepsTheWords | crates/tobii-cli/src/bridge.rs:307-336 | under an indent of whitespace the printed text splits into the same words |
| SharedHeap.IdsInTurn | crates/tobii-output/src/freetrack.rs:91-105 | the counter goes through every value but 0 and then starts over |
| SharedHeap.Provider.Publish | bridge/core/src/shm.rs:84-103 | the counter goes to its next value; if the wait for the mutex gave it the view holds that counter and the payload, byte for byte, and otherwise what it held |
| SharedHeap.Provider.Serve | bridge/provider/src/main.rs:271-308 | every datagram is counted once, those that decode are published in order, and the view shows the last of them that had the mutex, under the counter for how many there were up to it |
| SharedHeap.Read | bridge/core/src/shm.rs:162-176 | a copy nobody disturbs is the view |
| FeederInvariants.ActKeeps | bridge/core/src/feeder.rs:113-183 | every step of every process keeps the invariant: handles on the objects of one's own session, one holder of the port, owners of mutexes, copies right as far as they got |
| FeederInvariants.RunsKeep | bridge/core/src/feeder.rs:147-183 | the invariant holds in every state of every run |
| FeederTheorems.OnePublisher | bridge/core/src/feeder.rs:147-182 | in every reachable state at most one process, over all sessions, holds the port or can publish |
| FeederTheorems.OnlyTheHolderWrites | bridge/core/src/shm.rs:16-19 | a byte of a mapping changes only by a copy of the process that holds the port at that moment |
| FeederTheorems.LoserNeverWrites | bridge/provider/src/main.rs:216-226 | a standalone provider to which the port is refused copies no byte, before or after |
| FeederTheorems.CachedForLife | bridge/core/src/feeder.rs:253-261 | what a process cached at its first poll, a mapping or that there is none, it keeps as long as it lives |
| FeederTheorems.MappingStaysPinned | bridge/core/src/shm.rs:40-82 | an opened mapping stays the mapping of its session, and every later provider there is attached to it |
| FeederTheorems.TakeoverReachesCache | bridge/core/src/feeder.rs:132-169 | a frame published in a session after a takeover is in the mapping that was opened before it |
| FeederTheorems.HeldReadsAreWhole | bridge/core/src/shm.rs:162-176 | where no writer dies half way through a copy, a read with the mutex shows exactly the last frame published into that mapping, and nothing exactly when there is none |
| FeederTheorems.HeldReadIsWhole | bridge/core/src/shm.rs:162-176 | and elsewhere, of any mapping over which no writer died since its last frame |
| FeederFrames.HeldReadShowsLastFrame | bridge/core/src/shm.rs:84-103 | told of the steps alone: a read with the mutex gives the payload of the `publish` whose copy ended last in that mapping, under a counter for how often its process had called it, and nothing where none ended |
| FeederFrames.TakeoverShowsItsFrame | bridge/core/src/feeder.rs:132-169 | after a takeover the consumers that opened the mapping before it find in it the payload of the new provider's copy |
| FeederTheorems.NobodyIsLockedOut | bridge/core/src/shm.rs:89-103 | whoever died, a mutex is free or its owner is alive and can take the next step of the copy it owns it for |
| FeederTheorems.SomeMeansAHolderWrote | bridge/core/src/feeder.rs:240-261 | a frame is shown, with the mutex or without, only of a mapping a holder of the port has copied into |
| FeederTheorems.ProbeSays | bridge/core/src/feeder.rs:147-160 | a refused feeder reports the port taken exactly when some process of its session has the mapping open, and waiting only when nobody there can publish |
| FeederTheorems.LookFinds | bridge/core/src/feeder.rs:253-256 | a consumer's one look finds the mapping exactly when it works and some process of its session has it open |
| FeederTheorems.PortIsNeverLost | bridge/core/src/feeder.rs:147-183 | whoever has the port is alive and in a part of its life in which it gives it back |
| FeederTheorems.FreePortIsTaken | bridge/core/src/feeder.rs:147-160 | a feeder that tries gets the port exactly when nobody alive has it, and a standalone provider likewise, which stops otherwise |
| FeederTheorems.OwnCacheLooksTaken | bridge/core/src/feeder.rs:126-131 | a library that opened the mapping reports the port taken whoever holds it |
| FeederTheorems.TakenIsNoProof | bridge/core/src/feeder.rs:92-104 | a reachable state in which the port is reported taken, the holder is in another session, and nobody in this one can publish |
| FeederCounter.FrameShows | crates/tobii-output/src/freetrack.rs:91-105 | in every run, a frame copied to its end shows the counter for how often its process had called `publish` by then, failed waits included |
| FeederCounter.CounterRepeatsExactly | crates/tobii-output/src/freetrack.rs:91-105 | two frames of any run, of any processes and mappings, show the same counter if and only if the numbers of those calls differ by a multiple of 536870911 |
| FeederCounter.OneProcessRepeats | crates/tobii-output/src/freetrack.rs:91-105 | between two frames of one process lies at least one call, and they show the same counter exactly at whole turns |
| FeederCounter.TakeoverRepeats | crates/tobii-output/src/freetrack.rs:100-105 | a run in which two frames in turn, a takeover between them, show the same counter in the same mapping |

## Left out

- BridgeRuns.RunsAreSound: says a value is accounted for by its text or by what wine printed for it, because for a text that is not ASCII only the second is true; `Exactness.ByItsOwnText` says exactly when the first is.
- Flags.ReaderAgrees: one direction only, because the same value may stand after two tokens; which token the reader comes to is settled both ways by `Flags.ReaderFindsExactly`.
- Other programs write the keys between commands, never between a read and the write that follows it, which the code says it does not see.
- Wine's exit status is taken as a faithful report of whether a write landed, and the same wine is taken to serve both runs of a reading; what happens without the second is a lemma.
- Of the reader of `user.reg`, the file's header, sections and value names, and the wording for other types: of a key's value, its text is read as the code reads it, from any spelling of it whose digits do not run on. That wine writes such a spelling, and one that is refused for a text with a character of two UTF-16 units, follows the code's own account of wine. In runs with other programs the readings of the file are inputs, taken to be true.
- `install` stops before it reads a key when it would run a foreign wine; that decision is in `Status`, and the installs of a run start after it.
- The subcommands `run` and `games`, and the provider's own registration and launching of a game.
- Finding the prefix, the wine, the client and the artifacts; copying files is one input that says how far it got.
- The wording of every message, and of the reasons a value is not read; which of two sentences is said about a key left alone is kept as whether the record had a line.
- Shell quoting of printed command lines: a line is modelled as the tokens the shell makes of it.
- Starting, supervising and stopping wine, and the wineserver lock.
- Objects of the feeder protocol live by handles alone: the view that stays mapped when making the mutex fails is not modelled.
- The 1-second wait for a feeder's first report and its 1-second retries: steps are taken in any order, so every timing is covered and none is measured.
- A wait on the mutex either succeeds or fails; an abandoned mutex is one that is free, as both sides treat it.
- The contents of a frame after the counter: floating-point conversion and the layout of the pose.
- Processes told to use different ports, which may both publish.
- The functions the client libraries export, their registration and their one-line answers.
