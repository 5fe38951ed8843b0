# Coding-agent tools, modelled in Dafny

This project models the tool layer of the coding agent in
`04-build-coding-agent/tools.py`: the class `AgentTools` that a language
model calls to read and write files in a Django project, to list the
project's files, to search them for a string, and to run shell commands.

The model has seven modules:

- `Text` (`text.dfy`) covers the Python string behaviour the tools rely on:
  - the substring test `p in s`;
  - `str.strip()`, with the 29 characters of `str.isspace()`;
  - the way iterating over a text file cuts it into lines, each ending just after a line feed.
- `FileSystem` (`filesystem.dfy`) is the disk as a value.
  - It is a tree of named directories and files.
  - A file is either readable text, or text that fails to decode after a given number of lines.
  - It defines opening and reading a file, `mkdir(parents=True, exist_ok=True)`, and opening a file for writing.
  - It proves what a write does to the tree.
- `Walk` (`walk.dfy`) is `os.walk` as CPython runs it.
  - It keeps a stack of directories.
  - Each turn pops the top, lists it, hands the subdirectory and file names to the caller, then pushes the subdirectory names the caller left in the list, in reverse.
  - It defines the order in which directories are yielded, with and without pruning, and proves which directories are yielded, each once, parents before children.
- `Listing` (`listing.dfy`) is the list `see_file_tree` returns.
  - It proves exactly which paths are listed, that none is listed twice, and that a directory comes before its contents.
- `Search` (`search.dfy`) is the list `search_in_files` returns.
  - It proves exactly which matches are reported, that line numbers increase within a file, and what a file that fails to decode part-way contributes.
- `Command` (`command.dfy`) covers the `runserver` guard and the working-directory rule of `execute_bash_command`.
- `Tools` (`agent_tools.dfy`) holds the classes `Disk` and `AgentTools`.
  - `Disk` is the file system, which `write_file` changes in place.
  - `AgentTools` has the five tools as methods.
  - The listing and the search loop over an explicit `os.walk` stack, and each is proved to return what its function in `Listing` or `Search` specifies.

Paths are sequences of names, and joining paths is concatenation. The root
directory `"."` is the empty path. `os.path.relpath` of a path below the
project directory drops the project directory's components.

`search_in_files` walks with `os.walk` and discards the subdirectory list
(`04-build-coding-agent/tools.py:136`), so unlike `see_file_tree` it never
prunes and scans the files below the directories in `SKIP_DIRS` too.
`Tools.SkippedDirsSearchedNotListed` states the difference: a matching line
in a file below `node_modules` is reported by the search, although that file
is not in the file tree.

The listing prunes only subdirectory names. So a *file* named `.DS_Store`
or `.coverage`, two names in `SKIP_DIRS`, is still listed.
`Listing.FileTreeMember` states this. The root of the walk is entered even
when its own name is in `SKIP_DIRS`.

## Model

| member | source | states |
|---|---|---|
| Text.ContainsSpec | 04-build-coding-agent/tools.py:100 | `Contains(s, p)` holds exactly when `p` occurs in `s` at some index, which is the meaning of Python's `p in s` (both directions) |
| Text.Contains | 04-build-coding-agent/tools.py:142 | the substring test `pattern in line`; its meaning is stated by `Text.ContainsSpec` and `Text.EmptyPatternEverywhere` |
| Text.EmptyPatternEverywhere | 04-build-coding-agent/tools.py:142 | every line contains the empty pattern |
| Text.StripStartSpec | 04-build-coding-agent/tools.py:144 | removing leading whitespace leaves a suffix, removes only whitespace, and stops at a character that is not whitespace |
| Text.StripEndSpec | 04-build-coding-agent/tools.py:144 | removing trailing whitespace leaves a prefix, removes only whitespace, and stops at a character that is not whitespace |
| Text.StripSpec | 04-build-coding-agent/tools.py:144 | `line.strip()` is a contiguous part of the line, everything before and after it is whitespace, and it neither starts nor ends with whitespace |
| Text.Strip | 04-build-coding-agent/tools.py:144 | `line.strip()`; its meaning is stated by `Text.StripSpec`, `Text.StripTrimmed` and `Text.StripIdempotent` |
| Text.StripTrimmed | 04-build-coding-agent/tools.py:144 | stripping a string that neither starts nor ends with whitespace returns it unchanged |
| Text.StripIdempotent | 04-build-coding-agent/tools.py:144 | stripping twice gives the same as stripping once |
| Text.LineEnd | 04-build-coding-agent/tools.py:141 | the first line of a non-empty text is non-empty and no longer than the text |
| Text.LineEndSpec | 04-build-coding-agent/tools.py:141 | the first line stops at the first line feed, which it includes, or at the end of the text |
| Text.LineEndOf | 04-build-coding-agent/tools.py:141 | the first line of `l + rest` is `l` when `l` is one line ended by a line feed, or when nothing follows it |
| Text.LinesConcat | 04-build-coding-agent/tools.py:141 | joining the lines a file is cut into gives back its text: no character is lost or added |
| Text.LinesWellFormed | 04-build-coding-agent/tools.py:141 | every line is non-empty, contains a line feed only as its last character, and every line but the last ends with one |
| Text.LinesSpec | 04-build-coding-agent/tools.py:141 | the two facts above together |
| Text.Lines | 04-build-coding-agent/tools.py:141 | the lines iterating over a text file yields; their meaning is stated by `Text.LinesSpec` and `Text.LinesOfConcat` |
| Text.LinesOfConcat | 04-build-coding-agent/tools.py:141 | cutting the concatenation of well-formed lines gives back those lines, so cutting and joining are inverse |
| FileSystem.Child | 04-build-coding-agent/tools.py:41 | a directory has an entry for a name exactly when the name is among its entries' names, and the entry found is one of them |
| FileSystem.SetChild | 04-build-coding-agent/tools.py:58 | binding a name keeps the existing names in place and adds the name last when it is new; every entry is an old one or the new binding |
| FileSystem.LookupAppend | 04-build-coding-agent/tools.py:41 | looking up `a / b` is looking up `a` and then `b` below it |
| FileSystem.Lookup | 04-build-coding-agent/tools.py:41 | resolving a path from the root, one component at a time; characterized by `FileSystem.LookupAppend`, `FileSystem.LookupChild` and `FileSystem.ThroughFile` |
| FileSystem.LookupChild | 04-build-coding-agent/tools.py:81 | the entry `nm` of `d` is found among `d`'s entries, and nothing exists below a path that is not a directory |
| FileSystem.ReadAt | 04-build-coding-agent/tools.py:41-43 | reading returns the whole text of a readable file; it raises on a file that fails to decode and on a directory; a path that names nothing raises NotADirectory when a file lies on it and NotFound otherwise |
| FileSystem.ThroughFile | 04-build-coding-agent/tools.py:41-43 | a path that continues below a file names nothing, and opening it raises NotADirectory, not NotFound |
| FileSystem.MakeDirsLookup | 04-build-coding-agent/tools.py:56 | after `mkdir(parents=True, exist_ok=True)` the path and all its ancestors are directories, and nothing off the path changed |
| FileSystem.MakeDirs | 04-build-coding-agent/tools.py:56 | `mkdir(parents=True, exist_ok=True)`; characterized by `FileSystem.MakeDirsLookup`, `FileSystem.MakeDirsExisting` and `FileSystem.MakeDirsFails` |
| FileSystem.MakeDirsExisting | 04-build-coding-agent/tools.py:56 | `exist_ok=True`: making a directory that already exists succeeds and changes nothing |
| FileSystem.MakeDirsWF | 04-build-coding-agent/tools.py:56 | `mkdir` keeps names unique within every directory |
| FileSystem.MakeDirsFromEmpty | 04-build-coding-agent/tools.py:56 | `parents=True` on an empty tree always succeeds, and the new directory is empty |
| FileSystem.MakeDirsFresh | 04-build-coding-agent/tools.py:56 | a directory that `mkdir` had to create is empty |
| FileSystem.MakeDirsFails | 04-build-coding-agent/tools.py:56 | `mkdir(parents=True, exist_ok=True)` fails exactly when a file lies on the path, the path itself included |
| FileSystem.FileOnPathPrefix | 04-build-coding-agent/tools.py:56 | "a file lies on the path" means that some prefix of the path names a file |
| FileSystem.ParentIsDir | 04-build-coding-agent/tools.py:56 | whatever exists has a directory as its parent |
| FileSystem.WriteTextLookup | 04-build-coding-agent/tools.py:57-58 | after `open(p, "w")` and `write`, `p` is a readable file holding exactly the content, its ancestors are directories, and nothing off `p` changed |
| FileSystem.WriteText | 04-build-coding-agent/tools.py:57-58 | `open(p, "w")` and `write`; characterized by `FileSystem.WriteTextLookup` and `FileSystem.WriteTextInDir` |
| FileSystem.WriteTextInDir | 04-build-coding-agent/tools.py:57 | inside an existing directory, opening a path for writing fails exactly when the path is a directory |
| FileSystem.WriteTextWF | 04-build-coding-agent/tools.py:57-58 | opening for writing keeps names unique within every directory |
| FileSystem.WriteThenRead | 04-build-coding-agent/tools.py:45-58 | after a successful `write_file`, `read_file` of the same path returns exactly the content written, whatever the file held before (for the program, only when the content has no carriage return; see Left out) |
| FileSystem.WriteEffect | 04-build-coding-agent/tools.py:45-58 | after a successful write every ancestor of the path is a directory, created if it was missing, and nothing off the path changed |
| FileSystem.Write | 04-build-coding-agent/tools.py:55-58 | the two steps of `write_file`; characterized by `FileSystem.WriteThenRead`, `FileSystem.WriteEffect`, `FileSystem.WriteKeepsOtherFiles` and `FileSystem.WriteFails` |
| FileSystem.WriteKeepsOtherFiles | 04-build-coding-agent/tools.py:45-58 | a write creates no file except the one written and leaves every other file exactly as it was |
| FileSystem.WriteFails | 04-build-coding-agent/tools.py:45-58 | `write_file` raises exactly when an ancestor of the path is a file, or when the path is a directory |
| FileSystem.WriteFailureChangesNothing | 04-build-coding-agent/tools.py:55-58 | when `mkdir` succeeds but opening the file fails, `mkdir` created nothing |
| FileSystem.WriteWF | 04-build-coding-agent/tools.py:45-58 | writing keeps names unique within every directory |
| Walk.RelChild | 04-build-coding-agent/tools.py:82 | the relative path of `dirpath / name` is the relative path of `dirpath` followed by `name`, and no other path is |
| Walk.PrunedAppend | 04-build-coding-agent/tools.py:76-78 | pruning a concatenation prunes each part |
| Walk.PrunedExcludes | 04-build-coding-agent/tools.py:77 | no name in `SKIP_DIRS` survives pruning |
| Walk.Pruned | 04-build-coding-agent/tools.py:12-21 | the subdirectory names left after the loop removes those in `SKIP_DIRS`; characterized by `Walk.PrunedSubset`, `Walk.PrunedExcludes` and `Tools.PruneSkipped` |
| Walk.PrunedSubset | 04-build-coding-agent/tools.py:76-78 | a name survives pruning exactly when it was in the list and is not in `SKIP_DIRS` |
| Walk.PrunedDistinct | 04-build-coding-agent/tools.py:76-78 | pruning a list without repeated names gives a list without repeated names |
| Walk.RemoveAfter | 04-build-coding-agent/tools.py:78 | `list.remove(x)` removes the first `x` and keeps everything else in order |
| Walk.Remove | 04-build-coding-agent/tools.py:78 | `list.remove(x)`; characterized by `Walk.RemoveAfter` |
| Walk.PruneStep | 04-build-coding-agent/tools.py:76-78 | one turn of the loop over the snapshot `list(dirnames)`: a name in `SKIP_DIRS` is removed from `dirnames`, any other name is kept |
| Walk.NamesOfDirNames | 04-build-coding-agent/tools.py:74 | `os.walk` puts a name among the directory names exactly when it names a subdirectory, and among the file names exactly when it names a file |
| Walk.DirNamesDistinct | 04-build-coding-agent/tools.py:74 | neither list has repeated names |
| Walk.LevelNamesDistinct | 04-build-coding-agent/tools.py:80 | `dirnames + filenames` after pruning has no repeated name |
| Walk.DescendedNames | 04-build-coding-agent/tools.py:74-78 | the walk descends into the subdirectory names the caller left in `dirnames`: all of them in the search, the unpruned ones in the listing |
| Walk.VisitsPrefix | 04-build-coding-agent/tools.py:74 | every directory yielded lies at or below the top of the walk |
| Walk.VisitsMember | 04-build-coding-agent/tools.py:74 | a path is yielded exactly when it is a directory below the top and, when pruning, no directory on the way down is named in `SKIP_DIRS` |
| Walk.Visits | 04-build-coding-agent/tools.py:74 | the directories `os.walk` yields, in order; characterized by `Walk.VisitsMember`, `Walk.VisitsDistinct` and `Walk.VisitsTopDown` |
| Walk.VisitsDistinct | 04-build-coding-agent/tools.py:74 | no directory is yielded twice |
| Walk.VisitsTopDown | 04-build-coding-agent/tools.py:74 | the walk is top-down: a directory is yielded before everything below it |
| Walk.PendingUnderDescended | 04-build-coding-agent/tools.py:74 | the walks below the subdirectories the walk descends into follow one another in listing order |
| Walk.PopStep | 04-build-coding-agent/tools.py:74 | popping a directory off the stack yields it first, then the walks below the subdirectories it descends into, then what the rest of the stack holds |
| Walk.PushStep | 04-build-coding-agent/tools.py:74 | pushing one more subdirectory, in reverse order, puts its walk before the walks already pushed |
| Walk.WalkDirStep | 04-build-coding-agent/tools.py:74 | one turn on a directory keeps "yielded so far, then still pending" equal to the whole walk |
| Walk.WalkOtherStep | 04-build-coding-agent/tools.py:74 | popping a path that is missing or is a file yields nothing: the `onerror` default of `os.walk` ignores the listing error |
| Walk.VisitsAtPrefix | 04-build-coding-agent/tools.py:74 | everything `os.walk(p)` yields is a directory at or below `p` |
| Walk.VisitsAtMember | 04-build-coding-agent/tools.py:74 | `os.walk(p)` yields exactly the directories at or below `p`, less, when pruning, those reached through a directory below `p` named in `SKIP_DIRS` |
| Walk.VisitsAt | 04-build-coding-agent/tools.py:74 | `os.walk(p)` from a path; characterized by `Walk.VisitsAtMember` and `Walk.VisitsAtDistinct` |
| Walk.VisitsAtBelow | 04-build-coding-agent/tools.py:74 | everything `os.walk(p)` yields lies at or below `p` |
| Walk.VisitsAtDistinct | 04-build-coding-agent/tools.py:74 | `os.walk(p)` yields each directory once, and parents before children |
| Walk.WalkBelowProject | 04-build-coding-agent/tools.py:71 | everything walked from `project_dir / root_dir` lies below the project directory, so `relpath` applies to it |
| Listing.ListingOfStep | 04-build-coding-agent/tools.py:80-83 | walking one more directory appends that directory's level to the tree |
| Listing.UnderMember | 04-build-coding-agent/tools.py:80-83 | a path is joined from `dirpath` exactly when it is `dirpath` plus one of the names |
| Listing.UnderDistinct | 04-build-coding-agent/tools.py:80-83 | distinct names give distinct joined paths |
| Listing.LevelShape | 04-build-coding-agent/tools.py:80-83 | every path listed for `dirpath` is one component below it |
| Listing.LevelMember | 04-build-coding-agent/tools.py:76-83 | the entries listed for a directory are exactly its existing children, less its subdirectories named in `SKIP_DIRS` |
| Listing.ListingMember | 04-build-coding-agent/tools.py:74-83 | a path is in the tree exactly when its parent was walked and the path is in its parent's level |
| Listing.ListingParent | 04-build-coding-agent/tools.py:74-83 | every listed path has a walked parent |
| Listing.ParentWalked | 04-build-coding-agent/tools.py:74-78 | the parent of a path is walked exactly when it is a directory at or below `root_dir` and no directory from just below `root_dir` down to it is named in `SKIP_DIRS` |
| Listing.InParentLevel | 04-build-coding-agent/tools.py:76-83 | a path is in its parent's level exactly when it exists and is not a directory named in `SKIP_DIRS` |
| Listing.FileTreeMember | 04-build-coding-agent/tools.py:60-85 | `see_file_tree(root_dir)` lists exactly the existing paths strictly below `root_dir` that are reached through no pruned directory; a directory in `SKIP_DIRS` is left out, but a file with such a name is listed (both directions) |
| Listing.FileTree | 04-build-coding-agent/tools.py:60-85 | the list `see_file_tree` returns; characterized by `Listing.FileTreeMember` and `Listing.FileTreeOrder`, and computed by `Tools.AgentTools.SeeFileTree` |
| Listing.ListingDistinct | 04-build-coding-agent/tools.py:74-83 | the levels of distinct walked directories never repeat a path |
| Listing.LaterPrefixParents | 04-build-coding-agent/tools.py:80-83 | if a path listed later is a proper prefix of one listed earlier, then its parent is a proper prefix of the earlier one's parent |
| Listing.ListingTopDown | 04-build-coding-agent/tools.py:74-83 | a top-down walk gives a top-down listing: no path is listed after something inside it |
| Listing.FileTreeOrder | 04-build-coding-agent/tools.py:60-85 | `see_file_tree` lists every path once, and every directory before its contents |
| Search.ReadableLinesSpec | 04-build-coding-agent/tools.py:140-141 | a file that fails to decode yields a prefix of its lines, no more than it can decode, and all of them when it ends before the failure |
| Search.ReadableLines | 04-build-coding-agent/tools.py:140-141 | the lines a file yields before it is closed or fails to decode; characterized by `Search.ReadableLinesSpec` and `Search.ReadLine` |
| Search.ReadLine | 04-build-coding-agent/tools.py:141 | asking for line `i` gives it exactly while `i` is below the number of readable lines; it raises only for a file that fails to decode |
| Search.LineMatchesStep | 04-build-coding-agent/tools.py:141-144 | reading one more line appends its match, if any, to the file's matches |
| Search.FilesMatchesStep | 04-build-coding-agent/tools.py:137-146 | scanning one more file appends its matches |
| Search.MatchesOfStep | 04-build-coding-agent/tools.py:136-146 | walking one more directory appends the matches in its files |
| Search.LineMatchesMember | 04-build-coding-agent/tools.py:141-144 | a match is reported for the lines of a file exactly when it carries the file's path, a line number from 1, a line containing the pattern, and that line stripped (both directions) |
| Search.LineMatches | 04-build-coding-agent/tools.py:141-144 | the matches of one file's lines; characterized by `Search.LineMatchesMember`, `Search.LineMatchesIncrease` and `Search.PartialReadKeepsEarlierMatches` |
| Search.LineMatchesBound | 04-build-coding-agent/tools.py:141-144 | every match of a file carries its path and a line number between 1 and the number of lines read |
| Search.LineMatchesIncrease | 04-build-coding-agent/tools.py:141 | the matches of one file come in strictly increasing line order |
| Search.AllLinesMatch | 04-build-coding-agent/tools.py:141-144 | when every line contains the pattern, each line gives exactly one match, in order, with its number and stripped text |
| Search.EmptyPatternMatchesAll | 04-build-coding-agent/tools.py:142 | the empty pattern reports every readable line once, in order |
| Search.LineMatchesPrefix | 04-build-coding-agent/tools.py:139-146 | the matches among the first lines are a prefix of the matches among all lines |
| Search.PartialReadKeepsEarlierMatches | 04-build-coding-agent/tools.py:139-146 | when decoding fails after `k` lines, the matches found before the failure are kept: a prefix of the matches of the whole file, none beyond line `k` |
| Search.FileMatchesAtMember | 04-build-coding-agent/tools.py:138-146 | a file contributes matches only when it exists as a file, and each carries its relative path |
| Search.FilesMatchesMember | 04-build-coding-agent/tools.py:137-146 | the matches of a directory's files are exactly the matches of the existing files named in `filenames`, each with its path |
| Search.FilesMatchesIncrease | 04-build-coding-agent/tools.py:137-146 | within the files of one directory, line numbers increase for each path |
| Search.DirMatchesMember | 04-build-coding-agent/tools.py:136-146 | the matches reported for a walked directory are exactly the matches of the files directly inside it |
| Search.DirMatchesIncrease | 04-build-coding-agent/tools.py:136-146 | within one directory, line numbers increase for each path |
| Search.DirMatchesShape | 04-build-coding-agent/tools.py:143 | every match of a directory has a relative path one component below that directory |
| Search.MatchesOfMember | 04-build-coding-agent/tools.py:136-146 | a match is reported exactly when its file's parent was walked and the match is one of that parent's |
| Search.MatchesOfIncrease | 04-build-coding-agent/tools.py:136-146 | over distinct walked directories, line numbers increase for each path |
| Search.ParentScanned | 04-build-coding-agent/tools.py:136 | the unpruned walk reaches a file's parent exactly when that parent is a directory at or below `root_dir` |
| Search.InParentMatches | 04-build-coding-agent/tools.py:137-146 | an existing file's parent is a directory, and the parent's matches include a match exactly when the file exists and the match is on a matching line |
| Search.SearchMember | 04-build-coding-agent/tools.py:122-147 | `search_in_files` reports exactly the triples (path of a file strictly below `root_dir`, number of a readable line containing the pattern, that line stripped), in every directory, pruned names included (both directions) |
| Search.SearchResult | 04-build-coding-agent/tools.py:122-147 | the list `search_in_files` returns; characterized by `Search.SearchMember` and `Search.SearchOrder`, and computed by `Tools.AgentTools.SearchInFiles` |
| Search.SearchOrder | 04-build-coding-agent/tools.py:122-147 | the line numbers reported for any one file strictly increase, so no line is reported twice |
| Command.BlockedExtends | 04-build-coding-agent/tools.py:100 | text around a blocked command never unblocks it |
| Command.Blocked | 04-build-coding-agent/tools.py:100 | the `runserver` guard; characterized by `Command.BlockedExtends` and `Text.ContainsSpec` |
| Command.ManagePyRunserverBlocked | 04-build-coding-agent/tools.py:100 | `python manage.py runserver`, with any arguments after it, is blocked |
| Tools.SkippedDirsSearchedNotListed | 04-build-coding-agent/tools.py:74-78 | a matching line in a file below a directory named in `SKIP_DIRS` is reported by `search_in_files`, while `see_file_tree` does not list that file |
| Tools.PruneSkipped | 04-build-coding-agent/tools.py:76-78 | removing skipped names from `dirnames` while iterating over a copy leaves exactly the pruned list, order kept |
| Tools.AppendLevel | 04-build-coding-agent/tools.py:80-83 | the listing loop appends `relpath(dirpath / name)` for every name, in order |
| Tools.ListDirectory | 04-build-coding-agent/tools.py:76-83 | one directory's turn appends exactly that directory's level, and returns the pruned `dirnames` that the walk descends into |
| Tools.PushReversed | 04-build-coding-agent/tools.py:74 | after the caller's turn, `os.walk` pushes the remaining subdirectories so that their walks come next, in listing order |
| Tools.ListTurn | 04-build-coding-agent/tools.py:74-83 | one turn of `see_file_tree`'s loop keeps the tree equal to the listing of the directories walked so far, and shrinks what is still to be walked |
| Tools.SearchDirectory | 04-build-coding-agent/tools.py:137-146 | one directory's turn appends exactly the matches in its files |
| Tools.ScanFiles | 04-build-coding-agent/tools.py:137-146 | the file loop appends the matches of each file of `filenames`, in order |
| Tools.ScanPath | 04-build-coding-agent/tools.py:138-146 | a file that cannot be opened contributes nothing and the loop goes on (`except Exception: continue`); any other file contributes its matches |
| Tools.ScanFile | 04-build-coding-agent/tools.py:139-146 | the line loop appends a match for each readable line containing the pattern, numbered from 1, and stops at the end or at the first line that fails to decode, keeping the earlier matches |
| Tools.SearchTurn | 04-build-coding-agent/tools.py:136-146 | one turn of `search_in_files`'s loop keeps the matches equal to those of the directories walked so far, and shrinks what is still to be walked |
| Tools.AgentTools.constructor | 04-build-coding-agent/tools.py:23-30 | the tools are bound to one project directory |
| Tools.Disk.constructor | 04-build-coding-agent/tools.py:41-58 | the disk the tools read and `write_file` changes in place starts as a well-formed tree whose root is a directory |
| Tools.AgentTools.ReadFile | 04-build-coding-agent/tools.py:32-43 | `read_file` returns the whole text of `project_dir / filepath` exactly when it is a file that decodes; otherwise it raises the error of opening or decoding |
| Tools.AgentTools.WriteFile | 04-build-coding-agent/tools.py:45-58 | `write_file` succeeds exactly when the two-step write succeeds. On success the disk is the written tree, the content reads back, and nothing off the path changed. On failure, which the model has only from `mkdir` or the open, the disk is unchanged and the error is the one raised (an encoding failure after the open is not modelled, and the read-back is exact for the program only when the content has no carriage return; see Left out) |
| Tools.AgentTools.SeeFileTree | 04-build-coding-agent/tools.py:60-85 | the explicit-stack walk returns exactly `FileTree`, whose members and order `Listing.FileTreeMember` and `Listing.FileTreeOrder` give |
| Tools.AgentTools.SearchInFiles | 04-build-coding-agent/tools.py:122-147 | the explicit-stack walk returns exactly `SearchResult`, whose members and order `Search.SearchMember` and `Search.SearchOrder` give |
| Tools.AgentTools.ExecuteBashCommand | 04-build-coding-agent/tools.py:87-120 | a command containing `runserver` gets `("", message, 1)` and no process is started. Otherwise a working directory that is not a directory raises and starts nothing, with NotADirectory when a file lies on its path and NotFound otherwise, and the shell is started exactly when the command is allowed and the directory exists. Its outcome is returned, and a timeout is raised |

## Left out

- Python's universal-newline translation: a file's text is taken as stored, and lines are cut at `\n` only. `\r\n` and a lone `\r` are not translated.
- Character decoding: a file that fails UTF-8 decoding is represented by how many lines can be read before the failure. Bytes and the decoder are not modelled.
- Permission errors, and every other operating-system error apart from a missing path, a file where a directory is needed and a directory where a file is needed.
- Symbolic links, `..` components and absolute paths. `pathlib`'s `/` with an absolute right operand would escape the project directory; here every argument path is taken to be relative and plain.
- The order of directory listings: the model takes it to be the order of a directory's entries in the tree. The operating system does not promise any particular order.
- Entries that are neither files nor directories (sockets, devices).
- Changes to the disk made by other processes while a walk is in progress. Each tool reads the disk once.
- The shell: `subprocess.run` is a function parameter of `ExecuteBashCommand` that gives the outcome of a command. The model does not say what a command does to the disk, and the disk is not changed by `ExecuteBashCommand`.
- Text decoding of the command's output with `errors='replace'`: the output strings are whatever the shell parameter gives.
- The timeout is a constant passed to the shell parameter. Clocks and process termination are not modelled.
- FileSystem.WriteThenRead: the round trip is exact in the model for every content, but the program's `read_file` opens in text mode with universal newlines, so content holding `\r` reads back translated (`"a\r\nb"` reads back as `"a\nb"`). For the program the property holds only for content without `\r`.
- Tools.AgentTools.WriteFile: its read-back clause has the same limit as `FileSystem.WriteThenRead`: exact for the program only for content without `\r`.
- Tools.AgentTools.WriteFile: content is a sequence of Unicode scalar values, so the program's encoding failure is not modelled. Python text may hold a lone surrogate, which `f.write` fails to encode with UnicodeEncodeError after the `"w"` open has already run. The file is then left empty, and `mkdir` may already have created parent directories. The clause that a failed write leaves the disk unchanged holds for the program only when the failure comes from `mkdir` or from the open.
- The agent loop, the tool descriptions sent to the language model, and the Django project the agent edits are not part of this model.
