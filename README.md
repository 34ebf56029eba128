# polly package lifecycle, modelled in Dafny

polly installs packages from git repositories into a packages root
(`/opt/pollypackages`). Each package is a directory holding a descriptor file,
`.install.polly.json`. The descriptor names the install type (`executable`,
`library` or `script`), the `entryPoint` shell commands that set the package
up and, for executables, the path of the installed executable. Optional keys
give uninstall and update commands.

This project models the core of the package manager:

- the package store: descriptor validation, the scan of the root into records
  sorted by lower-cased name, and the lookups built on it;
- the filesystem helpers: the directory-size and file-count folds over
  `os.walk`, the unit choice of `format_size`, and safe create / remove;
- the git helpers: the package id of a repository URL, `get_git_info`,
  `check_for_updates` with its `origin/HEAD` → `origin/main` →
  `origin/master` fallback, and `upgrade_git_package`;
- the five commands `install`, `uninstall`, `upgrade`, `list` and `inspect`;
- the colour helpers: hex colour to ANSI escape, the palette, message
  formatting and the header.

The outside world has two parts.

- Processes (shell commands and git invocations) go through a `Runner`
  object. It records every process started, in order, and gets each exit
  status and output from an oracle. The oracle sees the history so far, so a
  fetch or a pull may change what later queries answer.
- The filesystem is a `Disk` value:
  - whether the root exists;
  - its entries by name;
  - the set of files outside it (installed executables).

  A `Volume` object holds the mutable disk. A `Permissions` value says which
  operations would raise.

Read-only operations take a `Disk`. State-changing ones are methods on
`Volume` and `Runner`. Each is proved equal to a specification function, for
example `UninstallSpec` or `InstallSpec`, and the properties are lemmas about
those functions.

Modules, one per file:

- `Common`: string helpers with Python's semantics (`split`, `join`, `strip`,
  `lower`, `str(int)`).
- `JsonData`: JSON values.
- `Shell`: processes and the fail-fast command loop.
- `FileSystem`.
- `PackageStore`.
- `Git`.
- `Installer`.
- `Uninstaller`.
- `Upgrader`.
- `Listing`.
- `Inspector`.
- `Colors`.

## Model

| member | source | states |
|---|---|---|
| Common.JoinSplit | polly/utils/git.py:13 | joining the pieces of `split(sep)` with `sep` gives back the string |
| Common.SplitJoin | polly/utils/git.py:64 | splitting a join of separator-free pieces gives back the pieces |
| Common.LStripPrefix | polly/utils/colors.py:14 | `lstrip` removes exactly a leading run of the given characters |
| Common.StripExact | polly/utils/git.py:9 | `strip` of padding around a core that starts and ends outside the set gives the core |
| Common.DecimalRoundTrip | polly/utils/colors.py:16 | the decimal text of a number reads back as that number |
| Common.LexLeqTotal | polly/utils/package.py:61 | the name order used by `sorted` is total |
| Common.LexLeqTransitive | polly/utils/package.py:61 | the name order used by `sorted` is transitive |
| Shell.Runner.Spawn | polly/utils/command.py:10-12 | starting a process appends it to the history; its exit status is the oracle's answer for the history before it |
| Shell.RunSilentCommand | polly/utils/command.py:5-26 | one shell line in the given directory is started; the verdict is its success |
| Shell.RunFailFast | polly/core/install_package.py:21-24 | the command loop's history and verdict are those of `FailFast` |
| Shell.FailFastRunsInOrder | polly/core/uninstall_package.py:36-39 | the processes started are the listed commands, in order, as a prefix of the list |
| Shell.FailFastVerdict | polly/core/uninstall_package.py:36-41 | the verdict is true iff every command ran and succeeded; otherwise the last one started failed |
| FileSystem.WalkSumIsTreeSum | polly/utils/filesystem.py:9-10 | folding over `os.walk`'s directory lists equals the recursive sum over the tree |
| FileSystem.GetDirectorySize | polly/utils/filesystem.py:5-18 | the total is the size of every readable file in the tree; a missing directory gives 0 |
| FileSystem.GetFileCount | polly/utils/filesystem.py:37-45 | the count is the number of files in the tree; a missing directory gives 0 |
| FileSystem.UnitIndexBounds | polly/utils/filesystem.py:30-32 | the unit chosen is at most TB, its power of 1024 is at most the size, and below TB the size is under the next power |
| FileSystem.UnitIndexUnique | polly/utils/filesystem.py:30-32 | only one unit satisfies those bounds |
| FileSystem.FormatSize | polly/utils/filesystem.py:21-34 | the label is the size's unit choice; it is `0 B` iff the size is 0 |
| FileSystem.SizeLabelZero | polly/utils/filesystem.py:23-24 | the label of a size is `0 B` iff the size is 0 |
| FileSystem.FileAndDirectoryExclusive | polly/utils/filesystem.py:78-85 | no path is both a file and a directory; a path exists iff it is one of the two |
| FileSystem.CreateRoot | polly/utils/filesystem.py:69-75 | creating the root succeeds iff it exists or may be created; only the root flag changes |
| FileSystem.RemoveDirectory | polly/utils/filesystem.py:58-66 | removal succeeds iff the entry is a directory that may be removed; only that entry goes |
| FileSystem.RemoveFile | polly/core/uninstall_package.py:18-23 | removing an outside file succeeds iff it exists and may be removed; only that file goes |
| FileSystem.Volume.SafeCreateDirectory | polly/utils/filesystem.py:69-75 | the new state and verdict are those of `CreateRoot` |
| FileSystem.Volume.SafeRemoveDirectory | polly/utils/filesystem.py:58-66 | the new state and verdict are those of `RemoveDirectory` |
| FileSystem.Volume.Remove | polly/core/uninstall_package.py:18-23 | the new state and verdict are those of `RemoveFile` |
| PackageStore.FirstMissing | polly/utils/package.py:96-99 | the missing field reported is a required field the descriptor lacks; none is reported iff all are present |
| PackageStore.ValidateJson | polly/utils/package.py:96-120 | a descriptor passes iff it conforms; each error is reported exactly in its case and in the source's order |
| PackageStore.ValidateMetadataFile | polly/utils/package.py:86-125 | a missing file, a file that is not JSON and a non-conforming descriptor each fail with their own error; it passes iff the file parses and conforms |
| PackageStore.ExecutablePathRequiredIffExecutable | polly/utils/package.py:113-118 | with valid type and entry points, the executable path is required exactly for executables |
| PackageStore.LoadPackageMetadata | polly/utils/package.py:128-135 | a descriptor is loaded iff the package directory holds a parsed one, and the value loaded is that parsed descriptor |
| PackageStore.ValidatedLoads | polly/utils/package.py:128-135 | a descriptor that validates always loads, as the conforming object parsed from the file |
| PackageStore.SortByNameCorrect | polly/utils/package.py:61 | sorting by lower-cased name gives a sorted sequence of the same distinct records |
| PackageStore.InsertSorted | polly/utils/package.py:61 | inserting into a sorted sequence keeps it sorted |
| PackageStore.ScanSorted | polly/utils/package.py:15-61 | the scanned records, sorted, are exactly the listing of the disk |
| PackageStore.GetInstalledPackages | polly/utils/package.py:10-61 | the result is the listing: one record per directory holding a descriptor, sorted by name; no root gives no packages |
| PackageStore.GetPackageByName | polly/utils/package.py:64-70 | a record is found iff the package is listed, and it is that package's record |
| PackageStore.PackageExists | polly/utils/package.py:73-77 | for a child name, true iff the package is listed; `""` and `.` test for a descriptor entry in the root itself, `..` for a descriptor file in `/opt`, reached through an existing root |
| PackageStore.GetPackageNames | polly/utils/package.py:80-83 | the names are exactly the listed packages, distinct and in lower-cased name order |
| Git.ExtractPackageId | polly/utils/git.py:6-13 | the id holds no `/` |
| Git.ExtractPackageIdOfRepoPath | polly/utils/git.py:6-13 | for a path `/a/b/name` or `/a/b/name.git` the id is `name` |
| Git.ParseLastCommitRoundTrip | polly/utils/git.py:63-71 | a `hash|subject|author|date` line parses back to its fields, with the hash cut to 8 characters |
| Git.PipeInSubjectDropsCommit | polly/utils/git.py:64-65 | a commit subject containing `|` gives five fields, so no last commit is reported |
| Git.GitInfoSpec | polly/utils/git.py:22-75 | outside a git repository nothing is started and nothing reported; an empty result is reported as none |
| Git.GetGitInfo | polly/utils/git.py:22-75 | the queries started and the information returned are those of `GitInfoSpec` |
| Git.NonBlankLines | polly/utils/git.py:143-144 | the lines kept are exactly the non-blank lines of the stripped output |
| Git.KeepNotBlankAppend | polly/utils/git.py:143-144 | the filter keeps a single line iff it is non-blank and distributes over concatenation, so it keeps the non-blank lines in their order |
| Git.KeepNotBlankCounts | polly/utils/git.py:143-144 | a non-blank line is kept as many times as it occurs; a blank one never |
| Git.RemoteCommitQueries | polly/utils/git.py:105-125 | the remote references are queried in order `origin/HEAD`, `origin/main`, `origin/master` |
| Git.RemoteCommitFallsBack | polly/utils/git.py:111-130 | every reference before the last one queried failed; the remote commit is the last query's stripped output |
| Git.CompareShape | polly/utils/git.py:105-152 | up to date iff the remote commit equals the current one; updates carry both hashes cut to 8 characters and non-blank messages |
| Git.CheckForUpdatesShape | polly/utils/git.py:78-155 | outside a repository nothing is started; inside, `git fetch origin` comes first and `rev-parse HEAD` second; at most six git queries |
| Git.CheckForUpdates | polly/utils/git.py:78-155 | the queries started and the verdict are those of `CheckForUpdatesSpec` |
| Git.UpgradeGitSpec | polly/utils/git.py:158-172 | an upgrade succeeds only inside a git repository |
| Git.UpgradeGitPackage | polly/utils/git.py:158-172 | the pull started and its verdict are those of `UpgradeGitSpec` |
| Installer.InstallFromMetadataOutcome | polly/core/install_package.py:15-34 | the entry points run in order in the package directory; success iff all ran and succeeded and, for an executable with a path, the `chmod` succeeded; `chmod` runs only then |
| Installer.InstallPackageFromMetadata | polly/core/install_package.py:15-34 | the processes started and the verdict are those of `InstallFromMetadataSpec` |
| Installer.ClearDestination | polly/core/install_package.py:59-62 | clearing removes only the destination entry and on success leaves it absent |
| Installer.CloneSpecFacts | polly/core/install_package.py:64-94 | the clone comes first; later steps only after a valid descriptor; success leaves the cloned directory listed with every entry point succeeded; failure reports no package id |
| Installer.InstallKeepsOtherPackages | polly/core/install_package.py:46-94 | other packages and outside files are never changed; an id that is not a child name changes nothing |
| Installer.InstallSuccess | polly/core/install_package.py:46-94 | a successful install lists the package with the cloned directory, a valid descriptor, a successful clone and successful entry points |
| Installer.InstallFailureLeavesNoPackage | polly/core/install_package.py:46-92 | a failed install reports no id; a package directory that was there and may be removed is gone afterwards, so a failed reinstall leaves no package; otherwise the package is absent, could not be removed, or nothing changed; without a root that may be created it stops with the root failure, nothing started and nothing changed |
| Installer.InstallRunsCommandsOnlyAfterValidation | polly/core/install_package.py:64-89 | the clone is the first process; no command runs unless the clone succeeded and the descriptor validated |
| Installer.InstallPackageFromGit | polly/core/install_package.py:37-97 | the new disk, the processes started and the result are those of `InstallSpec` |
| FileSystem.JoinRoot | polly/core/install_package.py:49 | joining the root with a name resolves to a child iff the name is a child name; `""` and `.` give the root, `..` its parent `/opt` |
| Installer.EmptyIdWipesRootAsWritten | polly/core/install_package.py:46-62 | with the URL path `/` the source's destination is the root itself, and clearing it removes every package |
| Installer.EmptyIdRefused | polly/core/install_package.py:46-62 | with the id checked, the URL path `/` is refused and the disk is untouched |
| Installer.DotIdEmptiesRootAsWritten | polly/core/install_package.py:46-62 | with the URL path `/.` the source's destination is `PACKAGES_DIR/.`; clearing it empties the root and then fails |
| Installer.DotIdRefused | polly/core/install_package.py:46-62 | with the id checked, the URL path `/.` is refused and the disk is untouched |
| Installer.DotDotIdWipesParentAsWritten | polly/core/install_package.py:46-62 | with the URL path `/..` the source's destination is `PACKAGES_DIR/..`, which is `/opt`; clearing it removes the root, every package and every outside file under `/opt`, then fails |
| Installer.DotDotIdRefused | polly/core/install_package.py:46-62 | with the id checked, the URL path `/..` is refused and neither the root nor `/opt` is touched |
| Uninstaller.ExecutablePath | polly/core/uninstall_package.py:11-17 | a path is found iff the descriptor declares an executable whose path is a string, and it is that string |
| Uninstaller.RemoveExecutableSpec | polly/core/uninstall_package.py:11-24 | it raises iff the declared path is not a string; otherwise only the descriptor's executable can be removed, and the verdict is false iff it exists and its removal raises |
| Uninstaller.RemoveExecutable | polly/core/uninstall_package.py:11-24 | the new disk and the verdict, or the raise with the disk unchanged, are those of `RemoveExecutableSpec` |
| Uninstaller.UninstallCommandsOutcome | polly/core/uninstall_package.py:27-41 | the listed uninstall commands run in order in the package directory; true iff all ran and succeeded |
| Uninstaller.RunUninstallCommands | polly/core/uninstall_package.py:27-41 | the processes started and the verdict are those of `UninstallCommandsSpec` |
| Uninstaller.UninstallOutcome | polly/core/uninstall_package.py:44-80 | success iff the package is listed with a non-empty descriptor whose executable path does not raise and its directory may be removed; it is then gone; no descriptor: refused with nothing started or deleted; a raising path: the handler's result with the disk unchanged; other packages are untouched; outside the root at most its executable goes |
| Uninstaller.UninstallIgnoresCommandFailures | polly/core/uninstall_package.py:63-71 | the disk and the result do not depend on how the uninstall commands end |
| Uninstaller.UninstallPackage | polly/core/uninstall_package.py:44-80 | the new disk, the processes started and the result, including the handler's result when `remove_executable` raises, are those of `UninstallSpec` |
| Upgrader.PartitionMembers | polly/core/upgrade_package.py:23-32 | the upgradeable packages are exactly those with updates; the errors are exactly those whose check failed |
| Upgrader.PartitionDisjoint | polly/core/upgrade_package.py:23-32 | no package is both upgradeable and in error |
| Upgrader.ClassifyUpdates | polly/core/upgrade_package.py:23-34 | each package is checked in turn, in listing order, and the two lists are the partition of the verdicts |
| Upgrader.CheckPackageUpdates | polly/core/upgrade_package.py:13-34 | the listing is checked package by package and split by the verdicts |
| Upgrader.SizeOfAppend | polly/core/upgrade_package.py:44-46 | the total size of two lists of packages is the sum of their totals |
| Upgrader.GetUpgradeSummary | polly/core/upgrade_package.py:37-54 | the count, the total size and the available space; the warning iff the space is known, non-zero and under twice the size |
| Upgrader.UpdateCommands | polly/core/upgrade_package.py:73-76 | update commands are taken only from a descriptor that lists them |
| Upgrader.UpgradeSingleOutcome | polly/core/upgrade_package.py:57-82 | the pull comes first, only in a git repository; a failed pull starts nothing more; success iff the pull and every update command succeeded, in order, in the package directory |
| Upgrader.UpgradeSinglePackage | polly/core/upgrade_package.py:57-82 | the processes started and the verdict are those of `UpgradeSingleSpec` |
| Upgrader.TallyPartition | polly/core/upgrade_package.py:118-122 | every upgraded package lands in exactly one of the successful and failed lists |
| Upgrader.TallyNoFailure | polly/core/upgrade_package.py:118-125 | nothing failed iff every upgrade succeeded; then all are successful, in order |
| Upgrader.UpgradeEach | polly/core/upgrade_package.py:118-122 | the packages are upgraded in turn and tallied by their verdicts |
| Upgrader.Selected | polly/core/upgrade_package.py:109-112 | a package is kept iff no names were given or its name is among them |
| Upgrader.SummarizeOutcome | polly/core/upgrade_package.py:124-143 | success iff no upgrade failed; the message for each case; the lists partition the chosen packages |
| Upgrader.UpgradePackages | polly/core/upgrade_package.py:85-143 | nothing upgradeable gives the no-upgrade result; otherwise the chosen packages are upgraded in turn and summarised |
| Listing.ExecutableInfoOf | polly/core/list_packages.py:47-59 | executable information is present iff the descriptor is an executable with a path; it carries that path and whether it exists; a path that is not a string raises |
| Listing.TotalSizeBounds | polly/core/list_packages.py:27 | the total is 0, shown as `0 B`, iff every package is empty; it is at least each package's size |
| Listing.FormatPackage | polly/core/list_packages.py:32-71 | the entry of a package is `SummaryOf` it |
| Listing.SummaryFields | polly/core/list_packages.py:32-69 | the entry copies the record's fields and formats its size; `has_metadata` iff a descriptor was read; details exactly in a detailed listing of a truthy descriptor, with the executable status, the entry points (`[]` when absent) and the optional fields; it raises only when the executable status does |
| Listing.ListPackages | polly/core/list_packages.py:4-90 | every listed package in listing order with the totals; the empty listing's own result; any entry that raises gives the error result |
| Inspector.GetPackageStatistics | polly/core/inspect_package.py:14-25 | the size, file count and date of the package tree |
| Inspector.StatsAgreeWithListing | polly/core/inspect_package.py:14-25 | the statistics' size and date agree with the package's listing record |
| Inspector.FileAt | polly/core/inspect_package.py:40-41 | a file is found iff it exists as a file in the package directory |
| Inspector.GetPackageContents | polly/core/inspect_package.py:28-45 | the contents are `ContentsOf` the important files |
| Inspector.ContentsRaises | polly/core/inspect_package.py:39-43 | the scan raises iff some important file exists but its size cannot be read |
| Inspector.ContentsMembers | polly/core/inspect_package.py:28-45 | each entry is an existing important file with its size label; every existing important file has an entry |
| Inspector.ContentsOrder | polly/core/inspect_package.py:28-45 | the entries follow the order of the important-file list |
| Inspector.DescriptorFirst | polly/core/inspect_package.py:30-45 | for a listed package, the descriptor is the first entry |
| Inspector.AdditionalMetadata | polly/core/inspect_package.py:88-97 | the additional metadata is the descriptor without the standard fields, values unchanged |
| Inspector.AdditionalMetadataFilter | polly/core/inspect_package.py:88-97 | the filter is idempotent, keeps a descriptor without standard fields, and splits the keys into kept and standard |
| Inspector.InspectOutcome | polly/core/inspect_package.py:48-115 | success iff the package is listed with a non-empty descriptor and neither the contents nor the executable check raise; the data reflects that descriptor; only the git queries are started |
| Inspector.InspectPackage | polly/core/inspect_package.py:48-115 | the processes started and the result are those of `InspectSpec` |
| Colors.ParseColor | polly/utils/colors.py:12-15 | a parsed colour has components in 0..255 and came from at least five hex digits |
| Colors.HexToAnsi | polly/utils/colors.py:12-16 | the escape is produced iff the colour parses |
| Colors.HexToAnsiDecodes | polly/utils/colors.py:12-16 | the escape decodes back to the parsed colour |
| Colors.AnsiDecodes | polly/utils/colors.py:16 | every colour's escape decodes to it |
| Colors.ParseColorRoundTrip | polly/utils/colors.py:12-16 | `#rrggbb` text of a colour, with any tail, parses back to it and converts to its escape |
| Colors.LeadingHashIgnored | polly/utils/colors.py:14 | a leading `#` does not change the colour or the escape |
| Colors.FiveDigitColor | polly/utils/colors.py:15 | five hex digits are accepted: the last slice holds one digit, which is the blue value |
| Colors.PaletteComponents | polly/utils/colors.py:3-9 | each palette constant parses to its colour |
| Colors.ColorCode | polly/utils/colors.py:21-27 | a palette code is the escape of its constant |
| Colors.ColorCodeIsAnsi | polly/utils/colors.py:21-27 | a palette code is the escape of its colour and decodes to it |
| Colors.GetColors | polly/utils/colors.py:19-30 | the palette has exactly the eight names; `reset` is the reset code; every other name is its colour's escape |
| Colors.GetColorsStyles | polly/utils/colors.py:19-30 | every palette entry is an escape code that shows nothing on screen |
| Colors.VisibleCode | polly/utils/colors.py:16 | an escape code shows nothing |
| Colors.FormatMessage | polly/utils/colors.py:33-62 | in simple mode the line ends with the message, is the message itself iff the type is not one of the five plain types, and adds no escape; in colour mode it shows on screen as two spaces, the glyph, a space and the message |
| Colors.FormatMessageInjective | polly/utils/colors.py:33-62 | different messages of one type give different formatted text |
| Colors.SimpleMode | polly/utils/colors.py:35-48 | a prefix is added iff the type is one of the five known ones; otherwise the message is unchanged; no escape is added |
| Colors.GlyphTypes | polly/utils/colors.py:52-61 | a symbol is shown iff the type is known or `question`; `question` has no plain prefix |
| Colors.ColourMode | polly/utils/colors.py:50-62 | on screen the colour message reads as indent, glyph, space and the message |
| Colors.VisibleStyled | polly/utils/colors.py:52-62 | for any palette of escape codes, the styled message shows only the glyph and the text |
| Colors.Rule | polly/utils/colors.py:86 | the rule has the requested length and consists of box-drawing characters |
| Colors.VisibleTitleLine | polly/utils/colors.py:77-82 | on screen the colour title line reads as the plain header |
| Colors.HeaderRuleMatchesTitle | polly/utils/colors.py:65-86 | the plain header is the visible colour title line, and the rule length equals that line's visible length |

## Left out

- URL parsing: `urlparse` is not modelled. An install takes the URL text
  and the path component it would yield.
- Time: creation times and their formatting (`getctime`, `strftime`) are a
  string stored with each package directory.
- `get_available_space` (statvfs) is a parameter of `GetUpgradeSummary`.
- `download_package`: the clone is a process, and the directory it leaves is
  a parameter.
- Side effects of shell commands on the disk are not modelled: entry-point,
  update and uninstall commands, the `sudo chmod +x` line of an executable
  package (install_package.py:31) and `git pull` (git.py:166) change only the
  process history.
- Floating point: `format_size` is modelled by the unit it chooses. The
  one-decimal rendering of the scaled value is not modelled; `SizeLabelOf`
  keeps the exact size and the unit.
- Concurrency, signals and timeouts: the 30-second fetch timeout falls under
  the oracle's "the process failed".
- Case folding: `str.lower` is modelled for ASCII letters only. JSON numbers
  other than integers are not modelled.
- Exception texts: the messages built from Python exception text are not
  modelled. This covers the `Error listing packages: …`, `Unexpected error
  during …` and `Failed to download package: …` messages. Their fixed part is
  kept.
- The outermost `except Exception` handlers of `install_package_from_git`
  and `upgrade_packages` are left out; their bodies raise only through the
  cases modelled elsewhere. The handler of `uninstall_package` is modelled for
  the raise its body can reach: an executable path that is not a string.
- The branch of `install_package_from_git` where loading a descriptor that
  just validated fails is not modelled: in this model that load cannot fail
  (`ValidatedLoads`).
- Dictionary key order is not modelled: descriptors and results are maps or
  records.
- `print` is not modelled: `PrintHeader` returns the text `print_header`
  writes. `run_silent_command`'s progress lines are not modelled.
- The palette constants in `colors.dfy` are written as `"#" + "4F8EF7"`. This
  is the same text as the source's literals.
- Colors.Symbol, Colors.Styled and Colors.TitleLine take the palette as a
  parameter. `FormatMessage` and `PrintHeader` pass them `GetColors()`.
- Colors.HeaderRuleMatchesTitle is stated for any palette of escape codes.
  `GetColorsStyles` shows that `GetColors()` is such a palette.
- Colors.ParseColor: `int(…, 16)` also accepts a sign, surrounding
  whitespace, underscores and non-ASCII digits. The model accepts ASCII hex
  digits only and treats anything else as raising.
- Listing.ExecutableInfoOf: an executable path that is not a string is taken
  to make `os.path.exists` raise. This holds for null, lists and objects; an
  integer or boolean, which Python takes as a file descriptor, is treated the
  same way. The path is also taken to lie outside the packages root
  (`Elsewhere`): an executable inside the root, such as a script in the
  package's own directory, is reported from the outside files, not from the
  package tree. The outside files are plain files only: a path naming an
  existing directory outside the root, which the source reports as
  `exists: True`, cannot be expressed.
- Inspector.InspectOutcome: the same treatment of a path that is not a string,
  and of a path inside the packages root.
- Installer.InstallFromMetadataOutcome: the `chmod` line writes an executable
  path that is a list or an object as `[...]` or `{...}` (`Show`); Python's
  f-string writes the value's full text.
- Uninstaller.RemoveExecutableSpec: the same treatment of a path that is not a
  string. The path is also taken to lie outside the packages root
  (`Elsewhere`). A path inside the root, such as another package's
  descriptor, would be removed by the source; the model cannot express it.
  Nor can a path naming an existing directory outside the root, for which
  `os.remove` raises and the source returns false.
- Uninstaller.UninstallOutcome: "other packages are untouched" holds for
  executable paths outside the packages root only, for the reason above.
- PackageStore.PackageExists: a name holding `/` is taken to name no package.
  The source joins it as a nested path, or as an absolute path when it starts
  with `/`.
- FileSystem.RemoveDirectory: an `rmtree` that raises is taken to change
  nothing, although the source may already have removed part of the tree,
  the descriptor among it. `Installer.InstallFailureLeavesNoPackage` and the
  clearing step of an install rely on this.
- A package directory whose `.install.polly.json` is itself a directory is not
  modelled (`WellFormedDir`). The source would list it as `Invalid` without
  metadata, and its validation would report a missing file.
- Installer.DotDotIdWipesParentAsWritten: the disk model holds the packages
  root and plain files outside it, so clearing `/opt` as written is shown to
  remove the root, every package and every outside file under `/opt`. The loss
  of other directories under `/opt` is outside the model.
- Upgrader.GetUpgradeSummary: the source returns `available_space and …`,
  which is `None` or `0` when the space is unknown or zero. The model keeps
  only its truth value.
- Upgrader.UpgradeSinglePackage: the package path is `PackagePath(name)`.
  That is the `path` of every record the listing produces.

## Findings

| source | as written | input that shows it | evidently intended | confidence | as-written member | corrected member |
|---|---|---|---|---|---|---|
| polly/core/install_package.py:46-62 | the package id from the URL is joined to the packages root without a check, and whatever exists there is removed | a URL whose path is `/` or `/.git` gives the empty id, so the destination is the root itself and `rmtree` removes every installed package | refuse an id that does not name a child of the packages root before touching the disk | high, by reading; not executed | Installer.EmptyIdWipesRootAsWritten | Installer.EmptyIdRefused |
| polly/core/install_package.py:46-62 | the same unchecked join with the id `.` | a URL whose path is `/.` gives the id `.`; `rmtree` of `PACKAGES_DIR/.` deletes every installed package before it fails on the final `.` | refuse an id that does not name a child of the packages root before touching the disk | high, by reading; not executed | Installer.DotIdEmptiesRootAsWritten | Installer.DotIdRefused |
| polly/core/install_package.py:46-62 | the same unchecked join with the id `..` | a URL whose path is `/..` or `/x/..` gives the id `..`; `package_dest` is `/opt`, which exists, so `rmtree` deletes the packages root, every installed package and the rest of `/opt` before the final `rmdir` fails | refuse an id that does not name a child of the packages root before touching the disk | high, by reading; not executed | Installer.DotDotIdWipesParentAsWritten | Installer.DotDotIdRefused |
