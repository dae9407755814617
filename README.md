# rsync-plugin sync logic in Dafny

This project models the sync logic of the Obsidian rsync plugin (`RsyncPlugin`),
in both versions the repository carries: the current `src/main.ts` and the older
root-level `main.ts`.

- **Command builder** (`command.dfy`, module `Command`). `runRsyncCommand` turns
  the settings record into one shell string. It picks one ssh transport clause by
  precedence: a private key, then a username with a password (through `sshpass`),
  then the port alone. It places the local path and `user@ip:remote` in push or
  pull order. It then appends ` --dry-run`, ` --log-file='P'` and a space followed
  by the `--exclude 'p'` clauses. The string is modelled character for character.
  Values are interpolated without escaping, as the code does.
- **Progress handler** (`progress.dfy`, module `Progress`). Each stdout chunk is
  matched against `/(\d+)%/`. The value reported is the base-10 value of the
  digit run that ends at the first `%` with a digit right before it. This is
  proved against a reference description of the leftmost match, in both
  directions.
- **Callbacks of one run** (`invocation.dfy`, module `Invocation`). A chunk with a
  marker gives one progress call. A run that ends without an error gives a final
  call with 100. A failed run gives no call on completion.
- **Scheduler**. `current_plugin.dfy` (`CurrentPlugin.RsyncPlugin`) models
  `src/main.ts`. `legacy_plugin.dfy` (`LegacyPlugin.LegacyRsyncPlugin`) models
  `main.ts`. Both are classes over the stored timer handle (`intervalId`,
  `syncInterval`). They share a host (`timers.dfy`, `Timers.TimerHost`) that hands
  out fresh timer ids and keeps a ghost map of live timers with their periods.
  In `src/main.ts` the live timers are exactly the tracked one, so at most one is
  live. In `main.ts`, `onload` starts a timer that is registered with the host
  but never stored. That timer stays live alongside the tracked one.
- **Exclude-pattern text field**. `src/main.ts` shows the patterns joined by `,`
  and reads them back by splitting on `,` and trimming each piece.
  `main.ts` uses `\n` and does not trim. Both have round-trip lemmas.
- `text.dfy` (`Text`) holds decimal rendering, `join`, one-character `split` and
  `trim`. `wrappers.dfy` holds `Option`.

`runRsyncCommand` in main.ts:91-143 has the same logic as src/main.ts:98-149;
main.ts:126 also logs the error, which is left out with the other logging. The ssh clause is at main.ts:98-104, the operands at 106-110,
the appended parts at 96 and 112-120, completion at 123-131 and the data handler
at 134-142. It is modelled once, by the `Command`, `Progress` and `Invocation`
members, and the table cites the src/main.ts lines.

The command is one shell string with values interpolated unescaped. No setting
is validated. Percentages are not clamped, and progress is not filtered for
monotonicity.
`Invocation.NoMonotonicFilter` shows a lower value reported after a higher one.
`Progress.ExtractPercentUnclamped` shows 250 reported as is.

## Model

| member | source | states |
|---|---|---|
| Text.NatToString | src/main.ts:106-110 | the decimal rendering of the port is all digits, has no leading zero, and reads back (DigitsValue) as the number itself |
| Text.IntToString | src/main.ts:106-110 | a negative port is rendered with a leading '-' followed by its magnitude in decimal, and a non-negative one as plain digits with its own value; the digits never have a superfluous leading zero |
| Text.DigitsValue | src/main.ts:144 | `parseInt(m, 10)` of a digit run: base-10 value; characterised by NatToString (its inverse) and ExtractFromSound |
| Text.Join | src/main.ts:103 | `Array.prototype.join`: characterised by JoinSplit, SplitJoin, Command.JoinAppend and Command.ExcludeOptionsAppend |
| Text.Split | src/main.ts:408 | `split` on one character gives at least one piece, and no piece contains the separator |
| Text.JoinSplit | main.ts:364-366 | joining the pieces of a split with the same separator gives back the text, for every text |
| Text.SplitJoin | main.ts:364-366 | splitting the join of a non-empty list whose items lack the separator gives back the list |
| Text.TrimStart | src/main.ts:408 | the result is a suffix, all removed characters are whitespace, and it does not start with whitespace |
| Text.TrimEnd | src/main.ts:408 | the result is a prefix, all removed characters are whitespace, and it does not end with whitespace |
| Text.Trim | src/main.ts:408 | `trim()` gives a trimmed text that is a contiguous slice of the input with only whitespace outside it on both sides, and leaves an already trimmed text unchanged |
| Command.RsyncCommand | src/main.ts:101-127 | the command string: characterised by SshClausePrecedence, PushPullSymmetry, UnknownDirection, DryRunInsertsFlag, LogFileInsertsClause, EndsWithExcludes and DefaultCommand |
| Command.BaseCommand | src/main.ts:113-117 | the command is left empty exactly when the direction is neither 'push' nor 'pull'; PushPullSymmetry relates the two branches |
| Command.ExcludeOptions | src/main.ts:103 | the clauses are empty exactly when there are no patterns; ExcludeOptionsAppend and ExcludeOptionsExample fix their order and form |
| Command.SshOptions | src/main.ts:102-111 | `sshOptions` always holds exactly one clause |
| Command.SshClausePrecedence | src/main.ts:105-111 | the clause is the key clause iff a key path is set; the sshpass clause iff no key path is set and both username and password are; the port-only clause otherwise; its join is that one clause |
| Command.PushPullSymmetry | src/main.ts:113-117 | push and pull give the same head (binary, fixed flags, ssh clause) and the same appended parts, with the local path and `user@ip:remote` swapped |
| Command.UnknownDirection | src/main.ts:113-127 | a direction other than 'push' or 'pull' leaves only the appended parts, because neither branch assigns the command |
| Command.DryRunInsertsFlag | src/main.ts:119-121 | turning dryRun on inserts exactly ` --dry-run` right after the operands and changes nothing else |
| Command.LogFileInsertsClause | src/main.ts:123-125 | a non-empty log path inserts exactly ` --log-file='P'` after the operands and the dry-run flag and changes nothing else |
| Command.EndsWithExcludes | src/main.ts:127 | the command always ends with a space and the exclude clauses; with no patterns its last character is that space |
| Command.ExcludeOptionsAppend | src/main.ts:103 | no patterns give ''; one more pattern appends a space (if any came before) and its `--exclude 'p'` clause, so clauses follow input order |
| Command.ExcludeOptionsExample | src/main.ts:103 | `["*.log", "tmp/*"]` gives `--exclude '*.log' --exclude 'tmp/*'` |
| Command.DefaultCommand | src/main.ts:20-34 | the default settings build `" -avz --progress --stats --no-links --delete -e \"ssh -p 22\"  @: "` |
| Progress.RunEnd | src/main.ts:142 | the end of the digit run starting at i: everything before it is a digit, and the character at it is not |
| Progress.ExtractFrom | src/main.ts:142-144 | the `/(\d+)%/` scan from a position: characterised by ExtractFromNone, ExtractFromSound and ExtractFromComplete |
| Progress.ExtractPercent | src/main.ts:142-144 | the first match of `/(\d+)%/` in a chunk, read in base 10: characterised by ExtractPercentNone, ExtractPercentSound and ExtractPercentComplete |
| Progress.ExtractFromNone | src/main.ts:142-143 | the scan from i finds nothing iff no digit-then-'%' marker lies after i |
| Progress.ExtractFromSound | src/main.ts:142-145 | what the scan from a run boundary finds is a maximal digit run ending in '%' with no earlier marker after i, and the value is that run read in base 10 |
| Progress.ExtractFromComplete | src/main.ts:142-145 | a maximal digit run ending at the first marker after i is what the scan from i finds |
| Progress.ExtractPercentNone | src/main.ts:142-143 | the handler reports nothing iff no digit in the chunk is immediately followed by '%' |
| Progress.ExtractPercentSound | src/main.ts:142-145 | every report is the base-10 value of the maximal digit run before the first marker |
| Progress.ExtractPercentComplete | src/main.ts:142-145 | the first marker's digit run is always what is reported, so the report is unique |
| Progress.ExtractPercentUnclamped | src/main.ts:144-145 | "250%" reports 250: no clamping |
| Progress.ExtractPercentFirstMarker | src/main.ts:142-145 | "a%12%3%" reports 12: a '%' after a non-digit is skipped and later markers are ignored |
| Progress.ExtractPercentSpaced | src/main.ts:142-143 | "x% 7 %" reports nothing |
| Invocation.CompletionReport | src/main.ts:130-137 | the completion callback reports progress iff exec ended without an error, and then reports exactly 100 |
| Invocation.DataTrace | src/main.ts:140-147 | the progress calls made by the data handler: characterised by DataTraceAppend and DataTraceBound |
| Invocation.ProgressTrace | src/main.ts:130-146 | all progress calls of a run: characterised by CompletionEndsTrace and NoMonotonicFilter |
| Invocation.DataTraceAppend | src/main.ts:140-147 | the handler keeps no state between chunks: the calls for a stream are those for its first part followed by those for the rest |
| Invocation.DataTraceBound | src/main.ts:141-146 | at most one call per chunk; one chunk gives exactly its match |
| Invocation.CompletionEndsTrace | src/main.ts:130-146 | a successful run's last call reports 100; a failed run makes no call beyond its chunks' |
| Invocation.NoMonotonicFilter | src/main.ts:141-146 | chunks "10%", "5%" and success give calls 10, 5, 100: no monotonic filtering |
| Timers.TimerHost.SetInterval | src/main.ts:82-84 | a new timer gets an id never live before and becomes live with its period |
| Timers.TimerHost.ClearInterval | src/main.ts:93 | clearing removes exactly that id from the live timers |
| CurrentPlugin.RsyncPlugin.Valid | src/main.ts:37-38 | every live timer is the tracked one, so at most one timer is live |
| CurrentPlugin.RsyncPlugin.constructor | src/main.ts:37-38 | the plugin starts with the default settings and no tracked timer |
| CurrentPlugin.RsyncPlugin.OnLoad | src/main.ts:40-46 | with a positive interval the single live timer is a fresh tracked one with period interval*60000; otherwise nothing changes |
| CurrentPlugin.RsyncPlugin.OnUnload | src/main.ts:57-60 | after unload no timer is tracked or live |
| CurrentPlugin.RsyncPlugin.SaveSettings | src/main.ts:66-75 | a timer is tracked iff the interval is positive; then it is fresh and the only live one with period interval*60000; otherwise no timer is live |
| CurrentPlugin.RsyncPlugin.ScheduleSync | src/main.ts:77-89 | all previously live timers are cleared; a timer is tracked iff minutes > 0, and then it is fresh and the only live timer, with period minutes*60*1000 |
| CurrentPlugin.RsyncPlugin.ClearScheduleInterval | src/main.ts:91-96 | afterwards nothing is tracked or live, the settings are unchanged, and it is a no-op when nothing was tracked |
| CurrentPlugin.SingleTimerWitness | src/main.ts:44-46 | onload with interval 5 and then saveSettings with interval 5 leave exactly one live timer |
| CurrentPlugin.ExcludeFieldText | src/main.ts:406 | the `,`-joined field text: characterised by ExcludeFieldRoundTrip, ExcludeFieldEmpty and ExcludeFieldStable |
| CurrentPlugin.ParseExcludeField | src/main.ts:408 | reading the field gives at least one pattern, each trimmed and free of ',' |
| CurrentPlugin.ExcludeFieldRoundTrip | src/main.ts:406-408 | a non-empty list of trimmed patterns without ',' comes back unchanged from its `,`-joined text |
| CurrentPlugin.ExcludeFieldEmpty | src/main.ts:406-408 | the empty list comes back as `[""]` |
| CurrentPlugin.ExcludeFieldStable | src/main.ts:406-408 | displaying what was read and reading it again gives the same list |
| LegacyPlugin.LegacyRsyncPlugin.constructor | main.ts:37-38 | the plugin starts with the default settings, no stored timer and no registered timer |
| LegacyPlugin.LegacyRsyncPlugin.AtMostOneTrackedTimer | main.ts:81-89 | apart from the registered onload timers, at most one timer is live |
| LegacyPlugin.LegacyRsyncPlugin.OnLoad | main.ts:40-46 | with a positive interval a fresh timer with period interval*60000 becomes live and registered, and `syncInterval` is not changed; otherwise nothing changes |
| LegacyPlugin.LegacyRsyncPlugin.OnUnload | main.ts:58-63 | the stored timer is cleared but `syncInterval` keeps its value; registered timers stay live |
| LegacyPlugin.LegacyRsyncPlugin.SaveSettings | main.ts:69-79 | a positive interval replaces the stored timer by a fresh one; otherwise a stored timer is cleared and reset, and with none stored nothing changes; registered timers are untouched |
| LegacyPlugin.LegacyRsyncPlugin.ScheduleSync | main.ts:81-89 | the stored timer is cleared and a fresh one with period minutes*60*1000 is always stored, also for minutes <= 0; registered timers are untouched |
| LegacyPlugin.DoubleTimerWitness | main.ts:44-46 | onload with interval 5 and then saveSettings with interval 5 leave two live recurring timers |
| LegacyPlugin.ExcludeFieldText | main.ts:364 | the `\n`-joined field text: characterised by ExcludeFieldRoundTrip, ExcludeFieldTextRoundTrip and ExcludeFieldEmpty |
| LegacyPlugin.ParseExcludeField | main.ts:366 | reading the field gives at least one pattern, none containing a newline |
| LegacyPlugin.ExcludeFieldRoundTrip | main.ts:364-366 | a non-empty list of patterns without newlines comes back unchanged from its `\n`-joined text |
| LegacyPlugin.ExcludeFieldTextRoundTrip | main.ts:364-366 | any text read in is displayed back exactly |
| LegacyPlugin.ExcludeFieldEmpty | main.ts:364-366 | the empty list comes back as `[""]` |

## Left out

- Spawning the process with `exec` and the stdout event stream are I/O. The chunks a run receives are a sequence given as input. A chunk boundary that splits a marker is therefore outside the model, and so is the order in which Node delivers events. Completion is taken to come after every chunk.
- `Notice` toasts and `console.log`/`console.error` output are UI and logging side effects.
- The modal, the settings tabs, their widgets, the progress bar DOM and the show/hide toggle are UI glue. Only the exclude-pattern join and split expressions are kept.
- `loadData`/`saveData`, `Object.assign` over persisted JSON, and async/await are persistence and host calls. `OnLoad` takes the loaded settings as a parameter.
- Timer firing is not modelled. Each firing would call `runRsyncCommand`, and runs may overlap. The browser's clamping of non-positive or oversized delays is not modelled either: a timer keeps the period it was requested with. The host clears timers passed to `registerInterval` when the plugin unloads, and that clearing is not modelled, so registered timers stay live in the model.
- `parseInt` of form text for `sshPort` and `scheduleInterval` is not modelled. Both are taken as integers, so `NaN` and fractional values are outside the model.
- Progress.ExtractPercent: returns the exact value of any digit run, while `parseInt` loses precision above 2^53.
- Text.IntToString: renders every integer exactly in decimal, whereas JavaScript renders a port of 1e21 or more in exponent form and loses exactness above 2^53.
- Text.Trim: characters are Unicode scalar values, whereas JavaScript strings are UTF-16 code units. The whitespace set is the ECMAScript WhiteSpace and LineTerminator set as listed.
- main.js is the compiled copy of main.ts, with the same logic, and is not modelled separately.

## Findings

| source | as written | input that shows it | evidently intended | confidence | as-written member | corrected member |
|---|---|---|---|---|---|---|
| main.ts:44-46 | `onload` starts a recurring sync timer and only registers it with the host. It is never stored in `syncInterval`, so `scheduleSync` and `saveSettings` never clear it | `onload` with `scheduleInterval` 5, then `saveSettings` with `scheduleInterval` 5: two recurring timers run the sync | the timer started at load is the tracked one and is replaced by later reschedules, as src/main.ts:44-46 does through `scheduleSync` | high; not executed | LegacyPlugin.DoubleTimerWitness | CurrentPlugin.RsyncPlugin.OnLoad |
