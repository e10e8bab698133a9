# Verified models of the shell, audio, loader and radio code

This project models the stateful core of the repository in Dafny 4.11 and proves what it does. `dafny verify
dfyconfig.toml` checks all of it.

## What is modelled

**The NSH script interpreter** (`nsh_parse.c`, `nsh_script.c`). NSH runs `if/then/else/fi`, `while|until/do/done`
and `break` without a syntax tree: two bounded stacks, predicates that say whether a command is enabled, and seeks
back to the loop head. Commands are an arbitrary function of an environment, the last status and the words.

- `NshMachine` is the control core on commands cut into words; `NshInvariant` has what every session keeps.
- `NshProgram` gives structured programs two meanings: `Eval`, that of section 2.9.4 of XCU in POSIX.1-2017 with a
  failing plain command ending the script, and `Act`, what NSH does. They differ in two ways. A loop that stands bare
  in the body of a loop still runs when the outer loop is over. And a `break` inside an `if` drops that `if`, so that
  the script ends with an error at the next `else` or `fi`. A script is disciplined if neither can happen; what follows
  a `break` in its block does not count.
- `NshCommands`, `NshSimulation`, `NshTheorems` prove that the flat machine over a list of commands does `Act` and stops
  exactly if `Act` ends, for every script whose breaks are direct, and for every script whose loops stand outside every
  `if`, and so does `Eval` for every disciplined script. `NshExactness` gives outcomes of the commands of every other
  such script for which NSH goes wrong: the machine is faithful exactly if the script is disciplined. `NshRepair` has a
  script of neither kind, in which a later `break` puts right what an earlier one dropped. `NshBlanks` adds any number
  of commands without words. `NshMatching` proves that each open loop goes back to its own head.
- `NshText`, `NshBytes` are the byte machine: words, quotes, line buffer, `np_foffs`, `np_loffs`, `np_jump`. `NshLayout`,
  `NshRefinement`, `NshReading`, `NshFiles` prove that it refines the machine on commands, with blank lines, comments
  and empty commands anywhere and any end of the file, so that reading a file comes to what the script means. `NshTidy`
  says which texts that speaks of: lines fit the buffer, quotes are closed on their lines, and loop heads have none.
  In one command `then` and `else` may be followed by no other keyword than `break`, and `do` by no loop word.
  `NshDepartures` shows that NSH goes wrong otherwise. `NshQuoting` has the round trip of printed command lines, and
  `NshWriting` that of lines written by hand: blanks and tabs, quotes where wanted, redirections, and a comment.
  `NshParser` is the imperative form: a class with the two stacks as arrays and a line buffer that is cut in place,
  proved equal to the functions above.

**The PCM decoder** (`pcm_decode.c`). `PcmWav` is the header of a stream, written out and parsed; `PcmFilter` is the
sub-sampler as a transducer of bytes with its closed form;
`PcmStream` is the decoder over whole runs of buffers, rate changes, stops and shutdowns; `PcmDecoder` is the class
that works in place on audio buffers.

**The Greybus manifest walker** (`manifest.c`): module `Manifest`, the format, the walk, parse and release, and the
class with the list of cports.

**dd** (`nsh_ddcmd.c`): module `Dd`, what is to be copied and the transfer loop with short reads, short writes and
errors anywhere, over character and block devices.

**The binary loader** (`binfmt_*.c`): `Unload` is the protocol between schedule_unload and the exits of children, and
its linked list; `ExePath` is the PATH cursor; `Binfmt` is the list of handlers and the loading of modules.

**The Si4713 driver** (`SI4713.c`): `Si4713Controls` (what is written for a control), `Si4713Fields` (packed
properties as independent fields), `Si4713Device` (power, regulators and entry points).

## Where the code departs from what it says

Each of these is a proved statement with the exact condition.

- A loop that stands bare in a loop body is not skipped with it, and a `break` inside an `if` drops that `if`:
  `NshTheorems.FaithfulIffDisciplined`, `NshFiles.FileFaithfulIffDisciplined`, `NshTheorems.BreakInIfFails`.
- The offset of a loop head is wrong exactly if the head has quotes: `NshDepartures.SavedOffsetExact`, and
  `NshDepartures.QuotedHeadFails` for a file.
- A keyword right after `then`, `else` or `do` is run as a command, exactly if it is one that has been looked for
  already: `NshDepartures.SplitsExact`, and `NshDepartures.SecondKeywordFails` for a file.
- A misplaced keyword does not end the script where a condition is waited for: `NshInvariant.RefusalExact`.
- The number of bytes to drop is kept in eight bits: `PcmFilter.RateExact`.
- Sample formats are never rejected, and fast forward is never left: `PcmWav.FormatNeverRejected`,
  `PcmStream.FastForwardForever`; a partial sample or gap is carried into the next stream: `PcmFilter.FreshExact`,
  `PcmStream.NextStreamExact`.
- Releasing a manifest removes cports of others with the same ids: `Manifest.ReleaseRestores`.
- The comment on schedule_unload says that a failing call does not free the structure; it may have been freed:
  `Unload.EmergencyExact`, and `Unload.FreedMeanwhile` for a run. An entry whose child is gone too early stays:
  `Unload.StaleIffLate`, and `Unload.LeftBehind` for a run.
- A refused power-up is reported as success when there are regulators: `Si4713Device.Device.PowerUpChip`.
- Controls after the first of a call see what earlier ones left: `Si4713Controls.UnmaskedExact`,
  `Si4713Controls.MaskedExact`; `Si4713Controls.UnspoiltValue` has what is written where nothing was left.

## Model

| member | source | states |
|---|---|---|
| NshInvariant.LoopStepValid | nuttx/apps/nshlib/nsh_parse.c:1478-1662 | nsh_loop keeps the invariant of the two stacks (bounds, slot 0 normal, live slots below the top in `do`) and never takes its "Shouldn't happen" branch |
| NshInvariant.ItefStepValid | nuttx/apps/nshlib/nsh_parse.c:1669-1804 | nsh_itef keeps the invariant and never takes its "Shouldn't happen" branch |
| NshInvariant.SaveResultValid | nuttx/apps/nshlib/nsh_parse.c:404-460 | nsh_saveresult keeps the invariant |
| NshInvariant.CmdBreakValid | nuttx/apps/nshlib/nsh_parse.c:2289-2312 | cmd_break keeps the invariant |
| NshInvariant.ParseCommandValid | nuttx/apps/nshlib/nsh_parse.c:1988-2165 | one command, well formed or not, keeps the invariant |
| NshInvariant.SessionValid | nuttx/apps/nshlib/nsh_parse.c:1525-1660 | every sequence of commands and line starts, well formed or not, keeps the invariant |
| NshInvariant.NoInternalError | nuttx/apps/nshlib/nsh_parse.c:1693-1803 | after every session both indices are below the nesting depth and neither "Shouldn't happen" branch can be reached |
| NshInvariant.SessionDepth | nuttx/apps/nshlib/nsh_parse.c:1525-1660 | no session changes the size of the stacks |
| NshInvariant.SessionSlots | nuttx/apps/nshlib/nsh_parse.c:1478-1804 | after every session from a fresh state the bottom slots are normal, loops under the top one are in their bodies, and no loop is open exactly if the loop stack is at its base |
| NshInvariant.LoopWordsExact | nuttx/apps/nshlib/nsh_parse.c:1478-1662 | the commands that nsh_loop lets pass, word by word: `do` exactly where a loop waits for it, `done` alone and in a body, `while` and `until` with a command, in a script, below the nesting depth and where nothing is waited for, and other words exactly where no loop waits for `do` |
| NshInvariant.ItefWordsExact | nuttx/apps/nshlib/nsh_parse.c:1669-1804 | the same for nsh_itef: `then` exactly after `if`, `else` exactly after `then`, `fi` alone and after either, `if` with a command below the nesting depth, and other words exactly where no `if` waits for `then` |
| NshInvariant.RefusalExact | nuttx/apps/nshlib/nsh_parse.c:2014-2038 | a refused command is not run and clears the stack of its kind; the script ends with an error exactly if no condition is waited for, and otherwise the refusal counts as a failed condition |
| NshProgram.LoopEndsItself | nuttx/apps/nshlib/nsh_parse.c:2289-2312 | a `break` in a loop ends that loop and no other |
| NshProgram.MeaningUnique | nuttx/apps/nshlib/nsh_parse.c:1401-1804 | what a block means does not depend on how long it is followed |
| NshProgram.NoResidue | nuttx/apps/nshlib/nsh_parse.c:1401-1417 | in a loop that is over, a body without bare loops does nothing |
| NshProgram.DisciplinedIsMeant | nuttx/apps/nshlib/nsh_parse.c:1401-1804 | for disciplined blocks what NSH does is what the block means, for any behaviour of the commands |
| NshProgram.DisciplinedIsDirect | nuttx/apps/nshlib/nsh_parse.c:1401-1804 | in a disciplined block every live `break` stands at the `if` level of its loop |
| NshSimulation.PlainSkipped | nuttx/apps/nshlib/nsh_parse.c:1462-1470 | a plain command or `break` that is not enabled changes neither environment, status nor stacks |
| NshSimulation.PlainRun | nuttx/apps/nshlib/nsh_parse.c:466-746 | an enabled plain command runs once, with its arguments cut at the argv limit, keeps the stacks, and ends the script exactly if it fails |
| NshSimulation.BreakRun | nuttx/apps/nshlib/nsh_parse.c:2289-2312 | an enabled `break` at the `if` level of its loop disables that loop and nothing else; outside a loop it does nothing |
| NshSimulation.BreakRefused | nuttx/apps/nshlib/nsh_command.c:151 | an enabled `break` with arguments ends the script with an error and changes nothing else |
| NshSimulation.BreakDrops | nuttx/apps/nshlib/nsh_parse.c:2289-2312 | an enabled `break` inside `if`s, in a loop outside every `if`, disables that loop and drops those `if`s |
| NshSimulation.StrayWord | nuttx/apps/nshlib/nsh_parse.c:1718-1784 | `else` or `fi` outside every `if` ends the script with an error and resets the `if` stack |
| NshSimulation.IfHead | nuttx/apps/nshlib/nsh_parse.c:1680-1716 | `if` pushes one slot that remembers the outcome of its condition, or that the `if` is disabled |
| NshSimulation.ThenWord | nuttx/apps/nshlib/nsh_parse.c:1718-1735 | `then` changes the state of the top `if` slot and nothing else |
| NshSimulation.ElseWord | nuttx/apps/nshlib/nsh_parse.c:1737-1754 | `else` changes the state of the top `if` slot and nothing else |
| NshSimulation.FiWord | nuttx/apps/nshlib/nsh_parse.c:1756-1784 | `fi` restores both stacks as they were before the `if` |
| NshSimulation.LoopHead | nuttx/apps/nshlib/nsh_parse.c:1493-1553 | `while` and `until` push one slot with the outcome of the test and the place of the loop head |
| NshSimulation.DoWord | nuttx/apps/nshlib/nsh_parse.c:1555-1573 | `do` opens the body and keeps the rest |
| NshSimulation.DoneWord | nuttx/apps/nshlib/nsh_parse.c:1575-1635 | `done` pops the loop and goes back to its head exactly if the loop is enabled |
| NshSimulation.SkipBlock | nuttx/apps/nshlib/nsh_parse.c:1428-1470 | a block in an untaken branch, whatever it nests, runs no command, leaves the status and returns both stacks as they were |
| NshSimulation.RunBlock | nuttx/apps/nshlib/nsh_parse.c:1401-1804 | an enabled block does on the flat machine what `Act` says: environment, status, outcome, stacks and place, dropped `if`s included |
| NshSimulation.RunIf | nuttx/apps/nshlib/nsh_parse.c:1669-1804 | the same for an `if` with or without `else` |
| NshSimulation.RunLoop | nuttx/apps/nshlib/nsh_parse.c:1478-1662 | the same for a loop, over all its rounds |
| NshSimulation.RunResidue | nuttx/apps/nshlib/nsh_parse.c:1401-1417 | in a loop that is over, the rest of the body is skipped except for its bare loops |
| NshExactness.NoneCheaper | nuttx/apps/nshlib/nsh_parse.c:1401-1804 | whatever the outcomes, NSH needs at least as many commands as the cheapest way through a block |
| NshExactness.ResidueCounts | nuttx/apps/nshlib/nsh_parse.c:1401-1417 | a bare loop in a loop that is over runs at least one command |
| NshExactness.UndisciplinedDiffers | nuttx/apps/nshlib/nsh_parse.c:1401-1417 | for every undisciplined block there are outcomes of its commands for which NSH does something else than the block means |
| NshBlanks.Follow | nuttx/apps/nshlib/nsh_parse.c:1988-2165 | a machine on a list with commands without words anywhere keeps abreast of one on the list without them |
| NshBlanks.Lead | nuttx/apps/nshlib/nsh_parse.c:1988-2165 | and the other way round |
| NshTheorems.ActReached | nuttx/apps/nshlib/nsh_parse.c:1401-1804 | if `Act` ends, the machine stops and shows its environment, status and stacks, whatever commands without words there are between |
| NshTheorems.StopMeansActEnded | nuttx/apps/nshlib/nsh_parse.c:1401-1804 | if the machine stops, `Act` ends |
| NshTheorems.MeaningReached | nuttx/apps/nshlib/nsh_parse.c:1401-1804 | every disciplined script that fits the stacks and means an end is brought to that end by the machine, for any command behaviour |
| NshTheorems.StopIsMeant | nuttx/apps/nshlib/nsh_parse.c:1401-1804 | if the machine stops on a disciplined script, the script means exactly that end |
| NshTheorems.StopsIffEnds | nuttx/apps/nshlib/nsh_parse.c:1401-1804 | the machine stops exactly if the script means an end |
| NshTheorems.UndisciplinedScriptFails | nuttx/apps/nshlib/nsh_parse.c:1401-1417 | for every script that is not disciplined, with direct breaks or with loops outside every `if`, there are outcomes for which the machine never stops as the script means |
| NshTheorems.FaithfulIffDisciplined | nuttx/apps/nshlib/nsh_parse.c:1401-1804 | for these scripts, the machine comes to what the script means for every behaviour of its commands exactly if the script is disciplined |
| NshTheorems.BreakInIfFails | nuttx/apps/nshlib/nsh_parse.c:2289-2312 | `while a; do if c; then break; fi; done`: if both commands succeed the script means a normal end, and the machine stops with an error |
| NshRepair.BreakRepairs | nuttx/apps/nshlib/nsh_parse.c:2289-2312 | a script with a loop inside an `if` and a `break` inside an `if` of an inner loop: the `break` is run, a later `break` of the outer loop restores the `if` level, and the machine comes to the end that is meant with the stacks as they were |
| NshTheorems.FreshCanStart | nuttx/apps/nshlib/nsh_parse.c:1401-1804 | in a fresh session every script that fits the stacks can be started |
| NshRefinement.ParseCommandRelated | nuttx/apps/nshlib/nsh_parse.c:1988-2165 | one command does the same on related states of the byte machine and the machine on commands, loop heads included |
| NshRefinement.OpensSplits | nuttx/apps/nshlib/nsh_parse.c:1988-2165 | `do`, `then` or `else` with a command on the same line, not a keyword of a kind that has been looked for, is the keyword followed by that command |
| NshDepartures.SplitsExact | nuttx/apps/nshlib/nsh_parse.c:1988-2165 | `then`, `else` or `do` with anything behind it is the keyword followed by the rest, in every state that accepts the keyword and for every behaviour, exactly if the rest does not start with a loop word, nor after `then` or `else` with an `if` word |
| NshDepartures.SecondKeywordFails | nuttx/apps/nshlib/nsh_parse.c:1988-2165 | `if a;then if b;then c;fi;fi`: the script means that all three commands are run; reading it, NSH runs `if b` as a command and ends with an error |
| NshRefinement.CommandRefines | nuttx/apps/nshlib/nsh_parse.c:1988-2165 | one command on bytes is one or two commands on the list, with the same jump |
| NshLayout.ResumeExact | nuttx/apps/nshlib/nsh_parse.c:2193-2276 | the line offset stays at the start of a command exactly if the command has no quotes |
| NshLayout.ScanReaches | nuttx/apps/nshlib/nsh_parse.c:2193-2276 | the scan of nsh_parse goes over quoted text and ends at the delimiter of the command |
| NshReading.LineIsRead | nuttx/apps/nshlib/nsh_script.c:147-163 | fgets reads exactly one line of a script whose lines fit the buffer, the last one with or without its newline |
| NshReading.FgetsExact | nuttx/apps/nshlib/nsh_script.c:147-163 | fgets stops after a newline, at the end of the file or after 79 characters, and at nothing else |
| NshReading.TurnExact | nuttx/apps/nshlib/nsh_script.c:130-165 | a turn of nsh_script takes the offset of its line from the read position, and is the last one exactly if the file is at its end or a command fails |
| NshTidy.LayoutExact | nuttx/apps/nshlib/nsh_parse.c:2193-2276 | a text has a layout that the theorems speak of exactly if its lines fit the buffer, its quotes are closed on their lines and its loop heads have none |
| NshTidy.LayoutUnique | nuttx/apps/nshlib/nsh_parse.c:2193-2276 | and it has only one |
| NshDepartures.SavedOffsetExact | nuttx/apps/nshlib/nsh_parse.c:2193-2274 | for every line that fits and every accepted loop head on it, nsh_parse runs the head, and the slot it leaves remembers the first byte of the head exactly if the head has no quotes |
| NshDepartures.QuotedHeadFails | nuttx/apps/nshlib/nsh_parse.c:2193-2274 | `while "a";do b;done`: the script means a normal end after three commands; reading it, NSH goes back to the byte after the quotes and ends with an error |
| NshReading.LineRefines | nuttx/apps/nshlib/nsh_parse.c:2193-2255 | the rest of a line does what its commands do on the list, and a jump leaves the rest of the line out |
| NshReading.LineInStep | nuttx/apps/nshlib/nsh_script.c:130-165 | one turn of nsh_script keeps the two machines in step |
| NshReading.LinesInStep | nuttx/apps/nshlib/nsh_script.c:130-165 | so does reading any number of lines |
| NshMatching.OpenAtHead | nuttx/apps/nshlib/nsh_parse.c:1493-1553 | when a loop head that is still open was read, just the loops around it were open |
| NshMatching.ScriptInPlace | nuttx/apps/nshlib/nsh_parse.c:1478-1804 | in the listing of a script, `do` follows a loop head, `then` an `if`, and `done` an open loop, at every place |
| NshMatching.AdvanceMatched | nuttx/apps/nshlib/nsh_parse.c:1478-1662 | one command, be it a loop head, a `done` that goes back or any other, keeps: the open loops are those whose heads are read and whose `done` is not, each with the place of its own head |
| NshMatching.LoopsMatchHeads | nuttx/apps/nshlib/nsh_parse.c:1478-1662 | so does running any script that fits, disciplined or not |
| NshMatching.SeeksMatchingHead | nuttx/apps/nshlib/nsh_parse.c:1605-1635 | at every point of reading the file of such a script, the offset that each open loop would seek to is the byte at which its own matching `while` or `until` starts |
| NshFiles.FileMeaningReached | nuttx/apps/nshlib/nsh_script.c:83-170 | for every layout of a disciplined script with lines that fit and loop heads without quotes, with blank lines, comments and empty commands anywhere: if the script means an end, reading the file comes to it, with its environment, status and stacks |
| NshFiles.FileStopIsMeant | nuttx/apps/nshlib/nsh_script.c:83-170 | if reading the file ends, that end is what the script means |
| NshFiles.FileFaithfulIffDisciplined | nuttx/apps/nshlib/nsh_script.c:83-170 | reading the file comes to what the script means for every behaviour of its commands exactly if the script is disciplined |
| NshFiles.LooseRuns | nuttx/apps/nshlib/nsh_script.c:83-170 | a file with a comment, a blank line, an empty command and no newline at its end is one that the theorems speak of |
| NshQuoting.ParseRunsPieces | nuttx/apps/nshlib/nsh_parse.c:2172-2280 | nsh_parse runs exactly the commands between the delimiters of a line, up to a failure or a jump |
| NshQuoting.PrintedWords | nuttx/apps/nshlib/nsh_parse.c:1249-1394 | a command printed with quoted words is tokenized to those words |
| NshQuoting.PrintedLineSplits | nuttx/apps/nshlib/nsh_parse.c:2193-2276 | a printed line is split into the printed commands |
| NshQuoting.RoundTrip | nuttx/apps/nshlib/nsh_parse.c:2082-2092 | printing a list of commands and parsing the line gives every command its original argument list, within the argv limit |
| NshWriting.WrittenWords | nuttx/apps/nshlib/nsh_parse.c:1249-1394 | words written with or without quotes, with backquoted parts, `>` and `>>`, and any blanks and tabs between them, are tokenized to those words; a comment or the end of the line ends them |
| NshWriting.WrittenLineSplits | nuttx/apps/nshlib/nsh_parse.c:2193-2276 | a line of such commands, parted by semicolons and followed by a comment or nothing, is split into exactly those commands |
| NshWriting.ArgvHoldsTen | nuttx/apps/nshlib/nsh_parse.c:2082-2092 | the argument vector holds the first ten words |
| NshWriting.WrittenLineRuns | nuttx/apps/nshlib/nsh_parse.c:2172-2280 | nsh_parse on such a line runs exactly those commands, in order, up to a failure or a jump |
| NshWriting.WrittenItem | nuttx/apps/nshlib/nsh_parse.c:2193-2276 | such a command is one that the theorems about files speak of |
| NshParser.CutWord | nuttx/apps/nshlib/nsh_parse.c:1308-1378 | a word is cut out of the buffer in place, and bytes outside it are kept |
| NshParser.Argument | nuttx/apps/nshlib/nsh_parse.c:1249-1394 | nsh_argument in place finds the next argument of the text and leaves the text after it readable |
| NshParser.CollectArguments | nuttx/apps/nshlib/nsh_parse.c:2082-2092 | the argv vector holds the words up to its limit, and each stands in the buffer when the command is executed |
| NshParser.Parser.SaveResult | nuttx/apps/nshlib/nsh_parse.c:404-460 | the method on the stacks does what the control core says |
| NshParser.Parser.CmdEnabled | nuttx/apps/nshlib/nsh_parse.c:1401-1470 | likewise for the three predicates |
| NshParser.Parser.CmdBreak | nuttx/apps/nshlib/nsh_parse.c:2289-2312 | likewise for cmd_break |
| NshParser.Parser.Loop | nuttx/apps/nshlib/nsh_parse.c:1478-1662 | likewise for nsh_loop, which also takes a word from the buffer |
| NshParser.Parser.Itef | nuttx/apps/nshlib/nsh_parse.c:1669-1804 | likewise for nsh_itef |
| NshParser.Parser.Execute | nuttx/apps/nshlib/nsh_parse.c:466-746 | a command runs on the environment and its result is saved; `break` with arguments is refused |
| NshParser.Parser.ParseCommand | nuttx/apps/nshlib/nsh_parse.c:1988-2165 | the command in the buffer does what its words do, and only its part of the buffer changes |
| NshParser.Parser.Parse | nuttx/apps/nshlib/nsh_parse.c:2172-2280 | the line in the buffer, cut in place at its semicolons, does what the byte machine says of its text |
| NshParser.Parser.ReadLine | nuttx/apps/nshlib/nsh_script.c:130-165 | one turn of the loop of nsh_script does what the byte machine says |
| NshParser.Parser.Script | nuttx/apps/nshlib/nsh_script.c:83-170 | the loop of nsh_script does so for any number of turns, and restores the stream of its caller when it ends |
| NshParser.ReadInto | nuttx/apps/nshlib/nsh_script.c:154-163 | fgets puts one line of the file into the buffer |
| NshParser.FindDelimiter | nuttx/apps/nshlib/nsh_parse.c:2203-2211 | the scan stops at the next newline, semicolon, comment or quote |
| NshParser.FindQuote | nuttx/apps/nshlib/nsh_parse.c:2259-2275 | the scan stops at the closing quote |
| PcmFilter.FeedConcat | nuttx/nuttx/audio/pcm_decode.c:506-659 | feeding two stretches one after the other is feeding them together |
| PcmFilter.CutAnywhere | nuttx/nuttx/audio/pcm_decode.c:506-659 | what comes out does not depend on how the stream is cut into buffers |
| PcmFilter.Selected | nuttx/nuttx/audio/pcm_decode.c:542-658 | byte k of the output is the byte of the stream at a place given in closed form, and the number of bytes out is given by the number in |
| PcmFilter.PlacesAreKept | nuttx/nuttx/audio/pcm_decode.c:542-658 | these places are exactly the indices i with i mod period below the sample size |
| PcmFilter.RateExact | nuttx/nuttx/audio/pcm_decode.c:536-538 | one sample in `rate` comes out of every stream exactly if the bytes to drop fit eight bits |
| PcmFilter.OneSampleInRate | nuttx/nuttx/audio/pcm_decode.c:506-659 | at a fixed rate within that bound, the concatenated output of any cutting is exactly the bytes with i mod (align * rate) below align |
| PcmFilter.FreshExact | nuttx/nuttx/audio/pcm_decode.c:542-636 | a sub-sampler left with a partial sample or a skip count treats every stream as a fresh one does exactly if it has neither, or has no skip count and there is nothing to skip between samples |
| PcmWav.FormatNeverRejected | nuttx/nuttx/audio/pcm_decode.c:349-425 | a header is accepted exactly if it is a WAV header: a sample format that is called unsupported is accepted too |
| PcmWav.HeaderIsParsed | nuttx/nuttx/audio/pcm_decode.c:324-425 | a header written out byte by byte (tags, little-endian fields) is valid, and gives back rate, block size, channels and bits |
| PcmWav.ParsedIsHeader | nuttx/nuttx/audio/pcm_decode.c:324-425 | 44 bytes are valid only if they are such a header |
| PcmWav.HeaderExact | nuttx/nuttx/audio/pcm_decode.c:324-425 | so 44 bytes are valid exactly if they are the header of some format, which is then the one that is used |
| PcmStream.ConfiguresFormat | nuttx/nuttx/audio/pcm_decode.c:1069-1150 | a first buffer with a header configures the lower driver with the channels, rate and bits of that header, takes over its format, and opens a stream exactly if the driver agrees and takes the buffer, and it is not the last |
| PcmStream.CompletesExact | nuttx/nuttx/audio/pcm_decode.c:1020-1166 | the completion callback is called exactly for a first buffer of 44 bytes or more that has no header, or that the lower driver does not take after it was configured |
| PcmStream.SameRateAgain | nuttx/nuttx/audio/pcm_decode.c:432-500 | to set the rate in force, or none, anywhere in a stream changes nothing |
| PcmStream.NewRateTakesOver | nuttx/nuttx/audio/pcm_decode.c:432-659 | after a change of rate the sample or gap that was begun is ended as it was, and every later gap is that of the new rate |
| PcmStream.FastForwardForever | nuttx/nuttx/audio/pcm_decode.c:432-500 | once sub-sampling is on, no run turns it off |
| PcmStream.StreamsIffStarted | nuttx/nuttx/audio/pcm_decode.c:1020-1166 | after every run the decoder streams exactly if an accepted first buffer was not followed by a final buffer, a stop or a shutdown |
| PcmStream.DeliversConfigured | nuttx/nuttx/audio/pcm_decode.c:1020-1166 | a buffer is handed down only while streaming or right after a successful configure |
| PcmStream.NeverUnconfigured | nuttx/nuttx/audio/pcm_decode.c:1020-1166 | over every run no buffer reaches the lower driver before a successful configure for that stream |
| PcmStream.StreamTransduced | nuttx/nuttx/audio/pcm_decode.c:506-659 | while streaming, with rate changes between buffers, what is handed down equals a transducer that goes byte by byte |
| PcmStream.WholeStream | nuttx/nuttx/audio/pcm_decode.c:1020-1166 | over a whole stream, of one buffer or more, it is the transduced stream with one WAV header removed |
| PcmStream.WholeStreamPassedOn | nuttx/nuttx/audio/pcm_decode.c:1020-1166 | without fast forward it is the samples themselves, whatever their size |
| PcmStream.FixedRateStream | nuttx/nuttx/audio/pcm_decode.c:506-659 | at a fixed rate it is the bytes at the places in closed form |
| PcmStream.OneSampleInRateDelivered | nuttx/nuttx/audio/pcm_decode.c:1020-1166 | over a run of the buffers of one stream that starts with the header of a format, at a fixed rate, what the lower driver gets is exactly the bytes after the header with i mod (align * rate) below align, align being that of the header |
| PcmStream.PhaseAfterStream | nuttx/nuttx/audio/pcm_decode.c:542-636 | the partial sample and the skip count after such a stream, from its length |
| PcmStream.CarriedExact | nuttx/nuttx/audio/pcm_decode.c:538-592 | after n bytes, samples of another size can be worked on exactly if the bytes of the unfinished sample are not more than one of them has, and are sub-sampled as from the start exactly if n is a multiple of the period, or nothing is left to skip and there are no gaps |
| PcmStream.NextStreamExact | nuttx/nuttx/audio/pcm_decode.c:1020-1166 | the same for the stream after one that was fast-forwarded at a fixed rate, over runs |
| PcmDecoder.CopyDown | nuttx/nuttx/audio/pcm_decode.c:638-650 | copying towards the front in one array moves the bytes and keeps those not yet read |
| PcmDecoder.Decoder.SetRate | nuttx/nuttx/audio/pcm_decode.c:432-500 | pcm_subsample_configure on the fields |
| PcmDecoder.Decoder.TakeSome | nuttx/nuttx/audio/pcm_decode.c:542-658 | one turn of the loop takes at least one byte, never overwrites an unread one, and keeps the bounds of the partial sample and the skip |
| PcmDecoder.Decoder.FilterDown | nuttx/nuttx/audio/pcm_decode.c:542-658 | the loop leaves at the front of the buffer exactly what the transducer lets through |
| PcmDecoder.Decoder.Subsample | nuttx/nuttx/audio/pcm_decode.c:506-659 | pcm_subsample on a buffer with any start offset does what the transducer does to its data |
| PcmDecoder.Decoder.Enqueue | nuttx/nuttx/audio/pcm_decode.c:1020-1166 | pcm_enqueuebuffer on the fields, the buffer and the calls to the lower driver |
| PcmDecoder.Decoder.Halt | nuttx/nuttx/audio/pcm_decode.c:783-875 | stop and shutdown end the stream |
| Manifest.Identify | nuttx/apps/greybus-utils/manifest.c:288-359 | a descriptor takes no more bytes than are left, and if it is not rejected at least what is expected of its type |
| Manifest.AcceptedSize | nuttx/apps/greybus-utils/manifest.c:288-359 | a descriptor is taken exactly if it is not longer than what is left and has at least 8 bytes (interface, bundle, cport), 12 bytes (ids), or, rounded down to a multiple of four, 6 bytes and its text (string) |
| Manifest.ReleaseRestores | nuttx/apps/greybus-utils/manifest.c:361-431 | release after parse (accepted, rejected on the way or for its header) restores the list exactly if it had none of the manifest's ids |
| Manifest.IdentifiedIsEncoded | nuttx/apps/greybus-utils/manifest.c:288-359 | what is taken as a descriptor is the encoding of a well-formed one: the fields of its kind, a string padded to a multiple of four, and any bytes beyond |
| Manifest.EncodedIsIdentified | nuttx/apps/greybus-utils/manifest.c:288-359 | an encoded well-formed descriptor is taken, with its own size |
| Manifest.WalkDecodes | nuttx/apps/greybus-utils/manifest.c:361-406 | the bytes walked over are the encoding of the descriptors found, and the cports are theirs in order |
| Manifest.StopsAtNoDescriptor | nuttx/apps/greybus-utils/manifest.c:361-406 | where the walk gives up, no well-formed descriptor starts |
| Manifest.EncodedIsWalked | nuttx/apps/greybus-utils/manifest.c:361-406 | an encoded list of descriptors is walked to its end and decoded to that list |
| Manifest.AcceptsIffTiled | nuttx/apps/greybus-utils/manifest.c:361-426 | a manifest is accepted exactly if it is the encoding of a non-empty list of well-formed descriptors: size, version 0, and the descriptors end to end, each written out by its kind |
| Manifest.RoundTrip | nuttx/apps/greybus-utils/manifest.c:361-431 | any list of descriptors is recovered from its encoding, and its cports are recorded in order; releasing it removes their ids |
| Manifest.ManifestStaysInside | nuttx/apps/greybus-utils/manifest.c:288-406 | verdict and cports depend only on the first `size` bytes, although a length byte may be read past them |
| Manifest.Interface.AllocCport | nuttx/apps/greybus-utils/manifest.c:79-89 | a cport is added at the end of the list |
| Manifest.Interface.FreeCport | nuttx/apps/greybus-utils/manifest.c:91-102 | all cports with the id are removed and the others stay in order |
| Manifest.Interface.IdentifyDescriptor | nuttx/apps/greybus-utils/manifest.c:288-359 | the size of the descriptor, with the list changed only for an accepted CPORT descriptor |
| Manifest.Interface.Descriptors | nuttx/apps/greybus-utils/manifest.c:390-406 | the loop with its cursor records, or removes, the cports of the whole walk |
| Manifest.Interface.ParseManifest | nuttx/apps/greybus-utils/manifest.c:361-426 | manifest_parse on the list of cports |
| Dd.CopyByte | nuttx/apps/nshlib/nsh_ddcmd.c:578-619 | each byte of the copy is the byte of the input from sector `skip` on, and zero past its end |
| Dd.CopyLength | nuttx/apps/nshlib/nsh_ddcmd.c:578-619 | the copy is at most `count` sectors, shorter only at the end of the input, with less than a sector of padding |
| Dd.CopyInTwo | nuttx/apps/nshlib/nsh_ddcmd.c:578-619 | two transfers with adjoining skip and count copy what one does |
| Dd.CopyAll | nuttx/apps/nshlib/nsh_ddcmd.c:578-619 | with nothing skipped and count large enough the copy starts with all of the input |
| Dd.WriteOn | nuttx/apps/nshlib/nsh_ddcmd.c:210-237 | writing at the offset where earlier bytes end extends what a device holds, and what does not fit is lost |
| Dd.Transfer.ReadCh | nuttx/apps/nshlib/nsh_ddcmd.c:301-324 | for any pattern of short reads a sector is read up to its size or the end of the input; it succeeds exactly if no read() fails |
| Dd.Transfer.ReadBlk | nuttx/apps/nshlib/nsh_ddcmd.c:276-294 | a sector is read at its offset in 32 bits, and nothing read is the end; it succeeds exactly if bchlib does not fail |
| Dd.Transfer.WriteCh | nuttx/apps/nshlib/nsh_ddcmd.c:244-269 | for any pattern of short writes the whole sector is written, or a part of it on an error; it succeeds exactly if no write() fails |
| Dd.Transfer.WriteBlk | nuttx/apps/nshlib/nsh_ddcmd.c:210-237 | the sector is written at its offset in 32 bits, past the end of the device the transfer ends without an error, and it succeeds exactly if bchlib does not fail otherwise |
| Dd.Transfer.Pad | nuttx/apps/nshlib/nsh_ddcmd.c:593-598 | the rest of the sector is zeros |
| Dd.Transfer.Run | nuttx/apps/nshlib/nsh_ddcmd.c:578-619 | for character and block devices alike, dd succeeds exactly if no read, write or call of bchlib fails; the output is then the copy, and the start of the copy otherwise, as long as sector numbers and offsets fit in 32 bits; between character devices no more of the input is taken than is needed |
| Unload.StepKeeps | nuttx/nuttx/binfmt/binfmt_schedunload.c:94-182 | every step of the protocol keeps the invariant: no module twice, each waiting module found under its pid, every open call accounted for |
| Unload.RunKeeps | nuttx/nuttx/binfmt/binfmt_schedunload.c:94-324 | so does every interleaving of calls and exits |
| Unload.ListIsExact | nuttx/nuttx/binfmt/binfmt_schedunload.c:94-182 | in every interleaving the list holds the module of exactly the scheduled running children, besides stale entries, and a module is unloaded at most once |
| Unload.StaleIffLate | nuttx/nuttx/binfmt/binfmt_schedunload.c:296-324 | a step leaves a stale entry exactly if a child is scheduled after it is gone or exits before the handler is connected |
| Unload.InTimeNoStale | nuttx/nuttx/binfmt/binfmt_schedunload.c:296-324 | in a run where that does not happen no entry is stale |
| Unload.UnloadsOwn | nuttx/nuttx/binfmt/binfmt_schedunload.c:202-235 | only an exit unloads, for its own pid, and the child's own module where one is scheduled |
| Unload.Conserves | nuttx/nuttx/binfmt/binfmt_schedunload.c:94-324 | what a run adds is on the list, unloaded or taken back: nothing is lost and nothing made up |
| Unload.PendingFound | nuttx/nuttx/binfmt/binfmt_schedunload.c:296-324 | while others act, a call's structure stays the one found under its pid unless its child exits with the handler connected |
| Unload.EmergencyExact | nuttx/nuttx/binfmt/binfmt_schedunload.c:296-324 | the emergency removal returns the structure just added exactly if its child has not exited meanwhile with a handler from an earlier call; otherwise it has been freed |
| Unload.FreedMeanwhile | nuttx/nuttx/binfmt/binfmt_schedunload.c:296-324 | a run from the start in which a failing call finds its structure unloaded and freed |
| Unload.LeftBehind | nuttx/nuttx/binfmt/binfmt_schedunload.c:296-324 | a run from the start that leaves an entry on the list with no child for it |
| Unload.UnloadList.ListAdd | nuttx/nuttx/binfmt/binfmt_schedunload.c:94-112 | the structure is linked at the head and the list stays acyclic |
| Unload.UnloadList.ListRemove | nuttx/nuttx/binfmt/binfmt_schedunload.c:135-182 | the first structure with the pid is unlinked and returned, the list stays acyclic and the rest in order |
| Unload.UnloadList.Callback | nuttx/nuttx/binfmt/binfmt_schedunload.c:202-235 | the structure to unload and free is the one found under the pid, and it is off the list |
| Unload.UnloadList.Schedule | nuttx/nuttx/binfmt/binfmt_schedunload.c:267-331 | with nothing in between, a failing call leaves the list as it was |
| Unload.UnloadList.RunAll | nuttx/nuttx/binfmt/binfmt_schedunload.c:94-324 | over every run of calls and exits that can be, the linked list stays acyclic and holds what the protocol says, and the structures freed are those it says |
| ExePath.JoinedComponents | nuttx/nuttx/binfmt/binfmt_exepath.c:173-261 | the directories taken from a joined PATH are those that were joined, an empty last one dropped |
| ExePath.ComponentsJoin | nuttx/nuttx/binfmt/binfmt_exepath.c:173-261 | every PATH value is the joining of its directories |
| ExePath.NextCandidate | nuttx/nuttx/binfmt/binfmt_exepath.c:173-261 | taking the next file over and over goes through all candidates in order |
| ExePath.FullPath | nuttx/nuttx/binfmt/binfmt_exepath.c:243 | the name tried in a directory is the directory, one slash and the name |
| ExePath.CandidatesAre | nuttx/nuttx/binfmt/binfmt_exepath.c:173-261 | the candidates are the regular files among directory, slash, name, all of them and in the order of the directories |
| ExePath.Cursor.constructor | nuttx/nuttx/binfmt/binfmt_exepath.c:108-143 | the cursor starts with the whole variable ahead |
| ExePath.Cursor.TakeDirectory | nuttx/nuttx/binfmt/binfmt_exepath.c:196-233 | one directory is taken off the front although its separator is overwritten |
| ExePath.Cursor.Next | nuttx/nuttx/binfmt/binfmt_exepath.c:173-261 | the result is the first directory left where the name is a regular file, and the directories after it are left |
| Binfmt.ListIsInForce | nuttx/nuttx/binfmt/binfmt_register.c:86-101 | after any run of registering and unregistering, the list is that of the registrations not taken back, the latest first |
| Binfmt.FirstThatLoads | nuttx/nuttx/binfmt/binfmt_loadmodule.c:118-157 | the first handler of the list that accepts the file loads it; without one the code of the last is returned, or -ENOENT |
| Binfmt.LatestIsChosen | nuttx/nuttx/binfmt/binfmt_loadmodule.c:136-153 | after any run a file is loaded by the handler registered latest among those in force that accept it |
| Binfmt.TriedUpToFirst | nuttx/nuttx/binfmt/binfmt_loadmodule.c:202-249 | the files are tried in order up to the first that some handler loads; without one the code for the last file is returned |
| Binfmt.SearchedFiles | nuttx/nuttx/binfmt/binfmt_loadmodule.c:202-249 | a name with a slash in front is the only file tried; any other is looked for in the directories of the PATH variable, in order, and nowhere if that is not set |
| Binfmt.Formats.RegisterBinfmt | nuttx/nuttx/binfmt/binfmt_register.c:86-101 | the handler is linked at the head and the list stays acyclic; a null handler is refused |
| Binfmt.Formats.UnregisterBinfmt | nuttx/nuttx/binfmt/binfmt_unregister.c:86-135 | exactly that handler is unlinked and the rest stays in order; one that is not on the list is refused |
| Binfmt.Formats.RunAll | nuttx/nuttx/binfmt/binfmt_register.c:86-101 | over every run of registering and unregistering, the linked list stays acyclic and holds the registrations in force, the latest first |
| Binfmt.Formats.LoadAbsModule | nuttx/nuttx/binfmt/binfmt_loadmodule.c:118-157 | the traversal gives the code and the unload method of the first handler that accepts the file |
| Binfmt.Formats.TryPath | nuttx/nuttx/binfmt/binfmt_loadmodule.c:202-240 | exactly the existing regular files on the PATH are tried, in its order, up to the first that loads |
| Binfmt.Formats.LoadModule | nuttx/nuttx/binfmt/binfmt_loadmodule.c:177-271 | absolute and relative names, the error codes, ENOENT without a PATH variable, and the file name always restored |
| Si4713Controls.UsecsToDev | SI4713.c:154-167 | the loop finds the first entry of the table that is long enough |
| Si4713Controls.FirstIsNearest | SI4713.c:154-167 | in a sorted table that entry is the one of the shortest time that is not less, and there is none exactly if all are less |
| Si4713Controls.LimiterContents | SI4713.c:106-127 | the table for the limiter is sorted, and its device values times their release times are between 500000 and 512000 |
| Si4713Controls.OtherContents | SI4713.c:134-152 | the other two tables are sorted, and their device values count up and down |
| Si4713Controls.LeftTells | SI4713.c:923-1042 | the variables left by the controls of a call tell exactly which kinds there were |
| Si4713Controls.UnmaskedExact | SI4713.c:1186-1209 | a scaled or tabled control is written as it should be, for all values, exactly if no masked control came before it in the call and, for a tabled one, no scaled one |
| Si4713Controls.UnspoiltValue | SI4713.c:1186-1209 | a scaled control with no masked one before it is written as its value in units of 1, 10 or 500; a tabled one with no masked or scaled one before it as the device value of the nearest time that is not shorter, and it is refused exactly if there is none |
| Si4713Controls.ChosenTarget | SI4713.c:923-1042 | the property that is chosen for a control is the one that the control is for, whatever came before |
| Si4713Controls.MaskedExact | SI4713.c:1186-1209 | a masked control is refused exactly if a table left by an earlier control ends before its value; otherwise its bits are set and no others, whatever came before |
| Si4713Fields.Apart | SI4713.c:964-1018 | fields of one property do not overlap |
| Si4713Fields.ChosenMask | SI4713.c:964-1018 | the mask chosen for a control is that of its field |
| Si4713Fields.SetField | SI4713.c:74 | set_bits makes a field hold its value and keeps all other fields and bits |
| Si4713Fields.FieldsAreIndependent | SI4713.c:1186-1209 | after any successful writes of controls and s_modulator calls the packed properties agree with a map of independent fields, and all other bits are unchanged but those of the properties that scaled and tabled controls take as a whole |
| Si4713Fields.LastWriteStands | SI4713.c:1186-1209 | over any run of writes the last control for a property is what the property holds, given what it held before |
| Si4713Fields.UnspoiltStands | SI4713.c:1186-1209 | so a scaled or tabled control that nothing spoilt, and that is the last for its property, is what the chip holds of it at the end, in units or as the nearest time |
| Si4713Device.FrequencyRoundTrip | SI4713.c:54-57 | a frequency in range is 160 times as many V4L2 units, and survives the conversion there and back |
| Si4713Device.FromUnits | SI4713.c:57 | V4L2 units are divided by 160, as long as 32 bits suffice |
| Si4713Device.Clamp | SI4713.c:1378-1379 | a frequency below 76 MHz becomes 76 MHz, one above 108 MHz becomes 108 MHz, and one between is kept |
| Si4713Device.Device.PowerUpChip | SI4713.c:338-411 | POWER_UP is sent only while off; regulators are enabled once while on; with an interrupt line the interrupts are enabled; a refused power-up is reported as success exactly if there are regulators |
| Si4713Device.Device.PowerDownChip | SI4713.c:417-456 | POWER_DOWN is sent only while on, and regulators are disabled exactly if the chip goes off |
| Si4713Device.Device.SetMute | SI4713.c:793-804 | both channels are muted or not, only while on, and no property of a control changes |
| Si4713Device.Device.SModulator | SI4713.c:1299-1341 | the packed fields stereo and RDS are set, read and written while on only, and the fields of the device only on success; no subchannel or another index is refused with nothing sent |
| Si4713Device.Device.GModulator | SI4713.c:1253-1296 | the stereo field is read back while on, and only then changes what the device holds |
| Si4713Device.Device.SFrequency | SI4713.c:1369-1391 | the frequency is clamped to the range and kept on failure; TUNE_FREQ with that frequency is sent exactly while on |
| Si4713Device.Device.GFrequency | SI4713.c:1344-1366 | the frequency reported is what the chip says, which is asked exactly while on, and that of the device otherwise; a failure changes nothing |
| Si4713Device.Device.Ioctl | SI4713.c:1217-1250 | while on the noise is measured and what the chip then says is kept, 0xFF on a failure; without power nothing is sent |
| Si4713Device.Device.Setup | SI4713.c:1050-1072 | the current frequency and modulation are written again and stay what they are: TUNE_FREQ is sent, then the modulation is read and written; no packed field but those of the modulation changes |
| Si4713Device.Device.WriteControl | SI4713.c:1180-1210 | a control that succeeds is the write of its property, given what earlier controls left; a scaled or tabled one that nothing spoilt leaves its property, and no other, holding its units or nearest time; an unknown control is refused with nothing sent |
| Si4713Device.Device.HandleSpecial | SI4713.c:1145-1178 | the output power is set once for the power level, or for the antenna capacitor unless all controls are written; names, texts and alternative frequencies go to their own commands and touch no property of a control |
| Si4713Device.Device.HandleControls | SI4713.c:1139-1212 | the controls that are new, or all if forced, are written in order, and their properties hold exactly that; in a cluster with different ids the output power is set exactly once if a control for it is to be written, and else never |
| Si4713Device.Device.Unmute | SI4713.c:1119-1130 | after a successful unmuting with the chip on, the mute is taken off, and the frequency and the modulation have been written again |
| Si4713Device.Device.SCtrl | SI4713.c:1101-1214 | muting sets the mute, then powers down; otherwise a successful call is the writes of its new controls, or of all of them after unmuting, on what the chip held before, up to the mute, frequency and modulation that unmuting writes again; with the chip off and the mute not new nothing is sent |
| Si4713Device.Device.RunAll | SI4713.c:1101-1391 | over every run of the entry points, every command but POWER_UP is sent while on and POWER_UP while off; if regulator calls succeed each present regulator is enabled exactly once while on and not while off, even when commands fail |

## Left out

- Expansion of variables and backquotes in words, redirection, background execution and nice: part of the uninterpreted behaviour of a command.
- The variant of nsh_argument without CONFIG_NSH_CMDPARMS, and nested `sh` scripts.
- Failing ftell and fseek, and NUL bytes in script files.
- NshTheorems.FaithfulIffDisciplined: shuts out scripts that have both a loop inside an `if` and a `break` inside an `if` of its loop, as do NshTheorems.ActReached, NshTheorems.StopMeansActEnded and NshTheorems.UndisciplinedScriptFails; being disciplined is enough for them too, but NshRepair.BreakRepairs shows that a later `break` may put right what is dropped.
- NshFiles.FileMeaningReached: asks for a text as in NshTidy.LayoutExact, and for commands in which `then` and `else` are not followed by another keyword but `break`, nor `do` by a loop word; NshDepartures has what happens otherwise.
- NshMatching.SeeksMatchingHead: asks that the session it starts in has no `if` that waits for its `then`, as does NshMatching.LoopsMatchHeads.
- NshParser.Parser.Script: takes the number of turns as a parameter, because a script need not end; the theorems about files quantify over it.
- NshSimulation.RunBlock: follows loops for a number of rounds given as fuel; NshTheorems.StopsIffEnds and NshProgram.MeaningUnique remove it.
- PcmDecoder.Decoder.Enqueue: the lower driver's answers are parameters; while fast-forwarding it shuts out a sample size of zero, with which the loop of pcm_subsample does not end, and a partial sample longer than a sample, for which a negative count becomes a large unsigned one.
- PcmStream.WholeStream: asks for a sample size that is not zero, because the rate may change within the stream.
- Allocation failures in the manifest walker, the PATH cursor and dd.
- The bchlib library under dd: a block device is a sequence of bytes of fixed size, and a failing write may have written a part of the sector.
- Dd.Transfer.Run: the input is finite, and sector numbers and offsets that do not fit in 32 bits are shut out.
- The parsing of dd's command line, opening and closing of its files.
- Unload.RunKeeps: process ids are not given to a new child while a call of schedule_unload names them, and a module is scheduled by the parent of its task, not while it is on the list or after it was freed; list operations are atomic, as the locks make them.
- Binfmt.Formats.RegisterBinfmt: shuts out a handler that is on the list already, which would be linked to itself.
- Binfmt.Formats.LoadModule: what stat() and the handlers' load methods answer for a file does not change during a call.
- The header si4713.h is not part of this model: POWER_UP is taken as 1, POWER_DOWN as 0, and the pre-emphasis codes as 2, 1, 0 for disabled, 50 and 75 microseconds.
- si4713_initialize and probing, which send GET_REV even where a refused power-up was reported as success.
- Si4713Device.Device.HandleSpecial: the value written for alternative frequencies and the arguments of the power command are not followed.
- Si4713Device.Device.SetRadioText: only the commands sent, not the text; nor the message count in Si4713Device.Device.SetPsName.
- Si4713Device.Device.SCtrl: what the chip holds right after it is powered up is taken as unknown.
- The Adafruit library, network, USB and telnet commands, cp and cat, help tables, and audio ioctl forwarding: easy members or plumbing.
