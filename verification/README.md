# qzdl launch-argument builder, modelled in Dafny

qzdl is a launcher for Doom source ports. When the user presses Launch,
the main window reads its configuration and then does three things:

- It resolves the source-port executable. `save/port` holds a port name,
  and the `zdl.ports` section pairs `p<digits>n=<name>` lines with
  `p<digits>f=<path>` lines.
- It builds the engine's command line, in this order:
  - `-iwad` pairs, resolved the same way through `zdl.iwads`;
  - skill, warp and dmflags;
  - the extra files, split into a `-file` group and a `-deh` group;
  - the game-type and multiplayer flags;
  - the network flags.
  It then quotes the tokens that contain spaces and appends two raw
  user-supplied strings.
- It refuses to start when there is no executable or nothing to pass. It
  also derives the working directory from the executable's path.

The model covers `getArguments`, `getExecutable` and the string part of
`launch` in `src/ZDLMainWindow.cpp`. It has two layers.

The declarative layer states what each step decides:
- `Config` is the store: sections of ordered `key=value` lines.
- `Registry` is the indexed name/file join.
- `FileGroups` scans and partitions the files.
- `Arguments` holds the decisions (`Arg`), their spelling as tokens
  (`Render`), and a parser that reads tokens back (`Parse`).
- `Quoting` holds `Quote` and its inverse `Unquote`.
- `Builder` holds the `Plan` of decisions and the final `LaunchArguments`.
- `Launcher` holds `Executable` and `Launch`.
- `Strings` and `Decimal` model Qt's `split`/`join`/`replace`,
  `toInt(&ok, 10)` and `QString::number`.

The operational layer is the module `MainWindow`. It follows the C++
statement by statement: loops over section lines, an early return at the
first resolving port, and the in-place quoting loop. Each method is proved
to return exactly what the declarative layer describes.

The main results:
- The decisions come out in the fixed order (`Plan`). `-host` and
  `-join` never both appear (`HostJoinExclusive`).
- The file groups are a partition of the scanned files. Nothing is lost
  or duplicated, scan order is kept, and the groups are classified by
  suffix (`FilePlanSpec`, `PartitionAppend`).
- Quoting keeps the list length and is undone by `Unquote`. Under a
  stated condition, the whole argument list decodes back to the plan it
  was built from (`ArgumentsDecode`). The condition is that no file name
  is itself a flag token.
- The port lookup, which stops at the first match, returns the head of
  the IWAD lookup, which collects every match (`FirstIsHeadOfAll`).
- The working directory is everything before the last `/` of the
  slash-normalised path (`WorkingDirectory`). Joining a split gives back
  the string (`JoinSplit`).

Some consequences of the code that are easy to miss:
- The IWAD scan of lines 246-261 has no `break`. Every `i<d>n` line that
  names the IWAD and has exactly one `i<d>f` line emits its own
  `-iwad <path>` pair, one per resolving line and in section order.
- In both scans, a name line is skipped when its file key matches zero
  or several lines, and the scan goes on to later name lines (lines
  255-259 and 423-428). The port lookup reports "not found" only when no
  name line resolves.
- An IWAD name that resolves to nothing does not abort the launch. The
  argument list has no `-iwad`, and the launch goes ahead if any other
  token was emitted (lines 165-167).
- The deathmatch token is the literal `-deathmath` (line 318).

## Model

| member | source | states |
|---|---|---|
| Config.LookupSpec | src/ZDLMainWindow.cpp:228-229 | `hasValue`/`getValue`: the lookup finds nothing exactly when no line has the key; otherwise it finds the value of the first line with that key |
| Config.ValuesOfSpec | src/ZDLMainWindow.cpp:252-255 | the anchored scan for one key returns the values of exactly the lines with that key; it is empty exactly when no line has the key, and it holds one value exactly when one and only one line has the key |
| Config.ValuesOfAppend | src/ZDLMainWindow.cpp:252-255 | the scan reads lines in order: the scan of two joined runs of lines is the scan of the first followed by the scan of the second, and a single line gives its value exactly when its key matches |
| Config.LookupIsFirstValue | src/ZDLMainWindow.cpp:228-229 | the single-key lookup agrees with the first value of the scan for that key |
| Registry.PairedFileKey | src/ZDLMainWindow.cpp:249-253 | stripping the first and last character of a `<x><digits>n` key and wrapping it in `<x>`…`f` gives a `<x><digits>f` key with the same digits |
| Registry.UniqueFileIsOneLine | src/ZDLMainWindow.cpp:252-255 | the `nameVctr.size() == 1` test holds for a name line exactly when one and only one line carries its paired file key |
| Registry.ResolveFromSpec | src/ZDLMainWindow.cpp:246-261 | the scan from a position collects a path exactly when some later name line names the target and its file key occurs once; it is empty exactly when no such line exists |
| Registry.ResolveAll | src/ZDLMainWindow.cpp:241-262 | the IWAD scan yields one file per resolving name line, in section order: as many files as resolving lines, the file of the k-th resolving line at position k, and nothing exactly when no line resolves |
| Registry.ResolveFromCount | src/ZDLMainWindow.cpp:246-261 | the scan from a position holds one file for each resolving line at or after it, each at the place its count of earlier resolving lines gives it |
| Registry.ResolveFirstFromSpec | src/ZDLMainWindow.cpp:415-430 | the port scan from a position finds nothing exactly when no later line resolves; otherwise it finds the file of the first resolving line |
| Registry.ResolveFirst | src/ZDLMainWindow.cpp:413-433 | the port lookup is empty exactly when no name line resolves, and otherwise returns the file of the first resolving line in section order |
| Registry.FirstIsHeadOfAll | src/ZDLMainWindow.cpp:415-430 | the port scan, which stops at the first match, returns the head of what the IWAD scan, which collects every match, returns |
| FileGroups.FileValues | src/ZDLMainWindow.cpp:289-291 | the `^file[0-9]+$` scan yields exactly the values of the `file<digits>` lines, at most one per line |
| FileGroups.FileValuesAppend | src/ZDLMainWindow.cpp:289-291 | the scan reads lines in order: the scan of two joined runs of lines is the scan of the first followed by the scan of the second |
| FileGroups.FileValuesOfLine | src/ZDLMainWindow.cpp:289-291 | a single line contributes its value exactly when its key is `file<digits>` |
| FileGroups.PartitionSpec | src/ZDLMainWindow.cpp:293-300 | every scanned name lands in exactly one group, as often as it was scanned; the patch group holds only `.deh`/`.bex` names (any letter case) and the archive group only others |
| FileGroups.PartitionAppend | src/ZDLMainWindow.cpp:294-300 | partitioning is compositional over concatenation, so scan order is kept within each group |
| Quoting.Quote | src/ZDLMainWindow.cpp:386-389 | a token with a space is wrapped in one pair of double quotes; any other token is unchanged |
| Quoting.UnquoteQuote | src/ZDLMainWindow.cpp:386-389 | quoting is undone by `Unquote` for every token |
| Quoting.QuoteAll | src/ZDLMainWindow.cpp:384-391 | the quoting pass keeps the list length and quotes each token in place |
| Quoting.UnquoteAllQuoteAll | src/ZDLMainWindow.cpp:384-391 | the quoting pass over a whole list is undone token by token |
| Decimal.NatToDecimal | src/ZDLMainWindow.cpp:327 | `QString::number` of a count is a non-empty run of decimal digits without a leading zero |
| Decimal.DecimalRoundTrip | src/ZDLMainWindow.cpp:327 | the digits of a formatted count have that count as their value |
| Decimal.ParseInt | src/ZDLMainWindow.cpp:320-324 | `toInt` yields a value in the 32-bit `int` range, and 0 for text that is not an optionally signed run of digits |
| Decimal.ParseIntOfDecimal | src/ZDLMainWindow.cpp:323-327 | a formatted count up to `INT_MAX` parses back to itself |
| Decimal.ParseIntOfNegative | src/ZDLMainWindow.cpp:320-324 | a minus sign before a formatted magnitude up to 2^31 parses to the negated value; in particular `-0` reads as 0 |
| Strings.ReplaceChar | src/ZDLMainWindow.cpp:169-171 | replacing backslashes keeps the length, leaves no backslash and keeps every other character in place |
| Strings.Concat | src/ZDLMainWindow.cpp:165 | the arguments joined with no separator are empty exactly when every argument is empty |
| Strings.LastIndexOf | src/ZDLMainWindow.cpp:174-177 | no position exactly when the character is absent; otherwise a position holding the character with none after it |
| Strings.Split | src/ZDLMainWindow.cpp:174 | `split("/")` yields at least one part and no part contains the separator |
| Strings.JoinSplit | src/ZDLMainWindow.cpp:174-180 | joining the parts of a split with the same separator gives back the string |
| Strings.SplitDropLast | src/ZDLMainWindow.cpp:174-180 | dropping the last part and rejoining keeps exactly what precedes the last separator, or "" when there is none |
| Arguments.Render | src/ZDLMainWindow.cpp:256-372 | every decision is spelled as one or more tokens, the first of which is one of the launcher's flags |
| Arguments.OrderedExcludesHostAndJoin | src/ZDLMainWindow.cpp:325-333 | a list in rank order never holds both a `-host` and a `-join` |
| Arguments.ParseStepRender | src/ZDLMainWindow.cpp:256-372 | the decision at the front of a rendering is read back whole, with its exact token count, whatever flag-led tokens follow |
| Arguments.ParseRenderAll | src/ZDLMainWindow.cpp:256-372 | the tokens of a well-formed plan parse back to exactly that plan |
| Builder.IwadPlan | src/ZDLMainWindow.cpp:241-262 | one `-iwad` per resolving `i<d>n` line, in section order: as many entries as resolving lines, the k-th resolving line's file at position k, every entry a resolved path, and none exactly when nothing resolves |
| Builder.SkillPlan | src/ZDLMainWindow.cpp:264-267 | `-skill v` is emitted exactly when `save/skill` is `v` |
| Builder.WarpPlan | src/ZDLMainWindow.cpp:269-272 | `+map v` is emitted exactly when `save/warp` is `v` |
| Builder.DmFlagsPlan | src/ZDLMainWindow.cpp:274-278 | `+set dmflags v` is emitted exactly when `save/dmflags` is `v` |
| Builder.DmFlags2Plan | src/ZDLMainWindow.cpp:280-284 | `+set dmflags2 v` is emitted exactly when `save/dmflags2` is `v` |
| Builder.GroupsPlanNames | src/ZDLMainWindow.cpp:304-312 | the two groups together carry the archives and then the patches, nothing else |
| Builder.GroupsPlanShape | src/ZDLMainWindow.cpp:304-312 | at most a `-file` group then a `-deh` group, each emitted only when non-empty |
| Builder.FilePlanSpec | src/ZDLMainWindow.cpp:286-312 | the file block is at most `-file` then `-deh`, neither empty, each holding only names of its kind, and together every scanned file exactly as often as it was scanned |
| Builder.DeathmatchPlan | src/ZDLMainWindow.cpp:317-319 | `-deathmath` is emitted exactly when the game type is "2" |
| Builder.PeerPlan | src/ZDLMainWindow.cpp:320-333 | `-host n` exactly when the parsed player count `n` is positive; `-join h` exactly when it is 0 and `save/host` is `h`; never both |
| Builder.FragLimitPlan | src/ZDLMainWindow.cpp:334-339 | `+set fraglimit v` exactly when `save/fraglimit` is `v`, whichever peer branch was taken |
| Builder.GamePlan | src/ZDLMainWindow.cpp:314-341 | nothing from the game block unless `save/gametype` is present and not "0"; what it emits is in rank order and only deathmatch, host or join, and frag limit decisions |
| Builder.GamePlanSpec | src/ZDLMainWindow.cpp:314-341 | `-deathmath` exactly in a multiplayer game of type "2"; `-host n` exactly in a multiplayer game with player count n > 0; `-join h` exactly in a multiplayer game with count 0 and `save/host` h; `+set fraglimit v` exactly in a multiplayer game with `save/fraglimit` v |
| Builder.NetPortPlan | src/ZDLMainWindow.cpp:348-351 | `-port v` exactly when `net/port` is `v` |
| Builder.ExtraTicPlan | src/ZDLMainWindow.cpp:352-357 | `-extratic` exactly when `net/extratic` is "enabled" |
| Builder.NetModePlan | src/ZDLMainWindow.cpp:358-367 | net mode "1" gives `-netmode 0`, "2" gives `-netmode 1`, and nothing else is ever emitted |
| Builder.DupPlan | src/ZDLMainWindow.cpp:368-374 | `-dup d` exactly when `net/dup` is `d` and `d` is not "0" |
| Builder.NetPlan | src/ZDLMainWindow.cpp:345-376 | nothing from the network section unless `net/advenabled` is "enabled"; what it emits is in the order port, extratic, netmode, dup, and only those |
| Builder.NetPlanSpec | src/ZDLMainWindow.cpp:345-376 | with advanced networking enabled and only then: `-port v` exactly for `net/port` v, `-extratic` exactly for "enabled", `-netmode 0`/`1` exactly for net mode "1"/"2", `-dup d` exactly for a dup d other than "0" |
| Builder.Assemble | src/ZDLMainWindow.cpp:377-399 | each built token keeps its place and is quoted exactly when quoting is on; the trailing values follow, unquoted and in order |
| Builder.LaunchArguments | src/ZDLMainWindow.cpp:228-239 | no IWAD selected gives no arguments; otherwise the built tokens are followed by `general/alwaysadd` and `save/extra` as the last tokens |
| Builder.Plan | src/ZDLMainWindow.cpp:241-376 | the decisions come out in the fixed order: IWADs, skill, warp, dmflags, dmflags2, files, patches, deathmatch, host or join, fraglimit, port, extratic, netmode, dup; only `-iwad` repeats |
| Builder.Trailing | src/ZDLMainWindow.cpp:393-399 | one raw token per value present: `general/alwaysadd` first, `save/extra` last |
| Builder.HostJoinExclusive | src/ZDLMainWindow.cpp:325-333 | no argument list holds both `-host` and `-join` |
| Builder.ArgumentsDecode | src/ZDLMainWindow.cpp:216-402 | when no file name is a flag token, stripping the trailing values, unquoting and parsing the argument list gives back the plan it was built from |
| Launcher.Executable | src/ZDLMainWindow.cpp:404-434 | "" when `save/port` is absent or no port line resolves; otherwise the file of the first resolving port line |
| Launcher.ProgramPath | src/ZDLMainWindow.cpp:169-171 | the program path has no backslash and keeps every other character |
| Launcher.WorkingDirectory | src/ZDLMainWindow.cpp:174-180 | the working directory is "" when the path has no `/`, otherwise everything before its last `/` |
| Launcher.Launch | src/ZDLMainWindow.cpp:159-180 | fails with "no source port" exactly when the executable is empty and with "no IWAD" exactly when there is an executable but no IWAD; succeeds exactly when there is an executable and some non-empty argument, with that program, those arguments and that directory |
| Launcher.ResolvedIwadLaunches | src/ZDLMainWindow.cpp:159-167 | with an executable and an IWAD name that resolves, the launch goes ahead |
| Scenarios.ZdoomPortResolves | src/ZDLMainWindow.cpp:409-427 | with `p1n=zdoom`, `p1f=/usr/bin/zdoom` and `save/port=zdoom` the executable is `/usr/bin/zdoom` |
| Scenarios.Doom2IwadPair | src/ZDLMainWindow.cpp:241-262 | with `i1n=doom2`, `i1f=/iwads/doom2.wad` and `save/iwad=doom2` the IWAD decisions are exactly one `-iwad /iwads/doom2.wad` |
| Scenarios.ArchiveBeforePatch | src/ZDLMainWindow.cpp:286-312 | with `file1=brutal.deh` and `file2=map01.wad` the file block is `-file map01.wad` then `-deh brutal.deh` |
| Scenarios.QuotedModName | src/ZDLMainWindow.cpp:384-391 | `my mod.wad` is quoted when quoting is on and kept as is when it is off |
| Scenarios.FourPlayersHost | src/ZDLMainWindow.cpp:314-341 | game type "1" with four players gives `-host 4` and nothing else from the game block |
| MainWindow.ScanKey | src/ZDLMainWindow.cpp:252-255 | the line-by-line scan for one key collects what the declarative scan describes |
| MainWindow.ResolveLine | src/ZDLMainWindow.cpp:247-258 | a name line yields a file exactly when it resolves the name, and then the paired file |
| MainWindow.GetExecutable | src/ZDLMainWindow.cpp:404-434 | the loop with its early return computes `Executable` |
| MainWindow.IwadTokens | src/ZDLMainWindow.cpp:241-262 | the IWAD loop appends exactly the tokens of the IWAD decisions |
| MainWindow.AppendSetting | src/ZDLMainWindow.cpp:264-284 | the `if hasValue … << flag << value` pattern appends the flag words and the value exactly when the key is present |
| MainWindow.SettingTokens | src/ZDLMainWindow.cpp:264-284 | the four setting blocks append exactly the tokens of the setting decisions |
| MainWindow.ScanFiles | src/ZDLMainWindow.cpp:286-302 | the file loop builds the two groups the partition describes |
| MainWindow.FileTokens | src/ZDLMainWindow.cpp:286-312 | the file block appends exactly the tokens of the file decisions |
| MainWindow.PeerTokens | src/ZDLMainWindow.cpp:320-333 | the player-count branches append exactly the tokens of the peer decision |
| MainWindow.GameTokens | src/ZDLMainWindow.cpp:314-341 | the game-type block appends exactly the tokens of the game decisions |
| MainWindow.MultiplayerTokens | src/ZDLMainWindow.cpp:316-340 | inside a game type other than "0", the deathmatch, peer and frag-limit appends give the tokens of the game decisions |
| MainWindow.AppendExtraTic | src/ZDLMainWindow.cpp:352-357 | the extratic block appends exactly the extratic decision's tokens |
| MainWindow.AppendNetMode | src/ZDLMainWindow.cpp:358-367 | the netmode block appends exactly the netmode decision's tokens |
| MainWindow.AppendDup | src/ZDLMainWindow.cpp:368-374 | the dup block appends exactly the dup decision's tokens |
| MainWindow.NetOptionTokens | src/ZDLMainWindow.cpp:348-374 | the port, extratic, netmode and dup appends give the tokens of the four network options in order |
| MainWindow.NetTokens | src/ZDLMainWindow.cpp:345-376 | the network block appends exactly the tokens of the network decisions |
| MainWindow.QuoteTokens | src/ZDLMainWindow.cpp:384-391 | the in-place loop quotes exactly as the quoting pass does |
| MainWindow.AppendTrailing | src/ZDLMainWindow.cpp:393-399 | `general/alwaysadd` then `save/extra` are appended raw |
| MainWindow.BlockTokens | src/ZDLMainWindow.cpp:241-376 | the five blocks appended one after another give the tokens of the whole plan |
| MainWindow.GetArguments | src/ZDLMainWindow.cpp:216-402 | the whole routine returns `LaunchArguments` |

## Left out

- The window itself is not modelled: geometry, title, tabs, signals and the pass-through getters. These are UI plumbing.
- Message boxes are not modelled as side effects. The two dialogs become the errors `NoSourcePort` and `NoIwad` of `Launch`. The silent abort on an empty joined argument list becomes `NothingToLaunch`.
- Process creation is not modelled. `QProcess`, its error capture and the `autoclose` handling are operating-system work; the model stops at the program, arguments and directory.
- `QDir::absolutePath` is not applied to the working directory. It depends on the file system and the current directory, so `WorkingDirectory` is the relative string before that step.
- The configuration manager, `ZDLConf`, `ZDLSection` and `ZDLLine` are not part of this model. The store is an explicit map from section names to ordered lines.
- `Config.Get` assumes `getValue` returns the value of the first line with exactly that key.
- A missing section reads as an empty one. This reproduces the source's skip of a null `zdl.iwads` or `zdl.save` section. The source dereferences a null `zdl.ports` section without a check; the model reads that case as empty too.
- The general regex engine is replaced by two fixed-pattern predicates. `IsIndexKey` matches `^<x>[0-9]+<y>$` and `IsFileKey` matches `^file[0-9]+$`. The pattern built from a name key contains only letters and digits, so its match is an exact key comparison.
- Decimal.ParseInt: rejects leading and trailing whitespace, which Qt's `toInt` skips. Such a player count reads as 0 here.
- `writeConfig`, logging and the `badLaunch` dialog are not modelled, because they are side effects outside the builder.
