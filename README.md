# pyfind, modelled in Dafny

pyfind is a small command-line tool that searches text files for a term,
ignoring case. `get_matches` walks a folder tree. It keeps the files whose
lower-cased extension is in the list of file types (`.py` by default). When
`pyfind` is set, it searches only folders that hold a `_pyfind` marker file.
Without `subdirs`, it stops after the start folder. Every line that contains
the term becomes a match `{folder, filename, lineno, linetext}`. Each match
is handed to a `MatchPrinter`. The printer prints a folder header and a file
header only when they change, then the line number and the stripped,
truncated line. `print_summary` then prints the number of matches, of
distinct file names and of distinct folders.

A second, stand-alone tool, `todo_search.py`, does three things:

- it reads the folders that a recursive `dir` listing reports;
- it builds one `_todo.txt` path per non-blank line;
- it prints every line of those files that contains the term, under a header
  printed once per file.

The project has four modules:

- `text.dfy` (`Text`) holds the Python string built-ins the tools use, with
  their Python meaning:
  - `str.lower` (ASCII letters only);
  - `in` on strings;
  - `str.strip`, using the code points for which `str.isspace` holds;
  - `str.split` on one character;
  - `rjust` and `ljust`;
  - clamped slicing;
  - `str(n)`.
- `printer.dfy` (`Printer`) holds:
  - the match record and the console lines, as events without colours;
  - the display text of a hit;
  - the printer's behaviour as a fold over the displayed matches (`RunSeen`, `RunEvents`);
  - the `MatchPrinter` class, with its `folder`, `filename` and console fields.
- `pyfind.dfy` (`PyFind`) holds:
  - `os.path.splitext`;
  - the search as functions (`LineMatches` … `Search`), together with an independent description of which matches exist (`LineHit`, `FileHit`, `WalkHit`);
  - the imperative search, proved against those functions;
  - `print_summary`.
- `todo_search.dfy` (`TodoSearch`) holds `get_todo_files` as a function and `main` as methods, proved against the functions `FileReport` and `TodoReport`.

The directory walk is an input: the folders `os.walk` yields top-down from
the start folder. Each folder comes with whether `_pyfind` is in it and with
its files, each file having a base name and its lines in file order. The
console is an output: the sequence of events written. `todo_search`'s
directory listing is a string parameter, and the file contents come from a
function parameter `readText`.

## Model

| member | source | states |
|---|---|---|
| Text.Lower | pyfind.py:64 | lower-casing keeps the length and maps each character on its own (upper-case ASCII letters to lower case, everything else unchanged) |
| Text.LowerIsLowerCase | todo_search.py:17 | a lower-cased text has no upper-case letter left |
| Text.LowerIdempotent | pyfind.py:60 | lower-casing twice is the same as lower-casing once |
| Text.ContainsIff | pyfind.py:64 | `t in s` holds exactly when `t` occurs at some offset of `s`, so the empty term is in every line |
| Text.StripLeftSpec | pyfind.py:128 | the left strip removes exactly the leading whitespace: the rest is a suffix that does not start with whitespace |
| Text.StripRightSpec | pyfind.py:128 | the right strip removes exactly the trailing whitespace: the rest is a prefix that does not end with whitespace |
| Text.StripSpec | pyfind.py:128 | `strip()` leaves a slice `s[i..j]` with only whitespace outside it and none at either end |
| Text.StripIdempotent | pyfind.py:128 | stripping a stripped text changes nothing |
| Text.Split | todo_search.py:17 | splitting on a character always gives at least one part, and no part holds the separator |
| Text.JoinSplit | todo_search.py:17 | joining the parts of a split with the separator gives the text back |
| Text.SplitJoin | todo_search.py:30 | splitting a join of separator-free parts gives the parts back |
| Text.SplitAppend | todo_search.py:30 | the split of `a + sep + b` is the split of `a` followed by the split of `b` |
| Text.SplitNoSep | todo_search.py:30 | a text without the separator splits into itself alone |
| Text.SplitChars | todo_search.py:17 | every character of every part comes from the text split |
| Text.SplitLowerCase | todo_search.py:17 | every part of the split of a lower-case text is lower case |
| Text.RJust | pyfind.py:94 | `rjust` gives at least `width` characters, the text at the end and fill characters before it |
| Text.LJust | todo_search.py:20 | `ljust` gives at least `width` characters, the text at the start and fill characters after it |
| Text.Slice | todo_search.py:20 | Python slicing with clamped bounds: the plain slice when the bounds are in range, the empty string for an empty or out-of-range range |
| Text.NatToString | pyfind.py:127 | `str(n)` is a non-empty string of decimal digits without a leading zero |
| Text.NatToStringValue | pyfind.py:127 | reading the digits of `str(n)` back gives `n` |
| Text.NatToStringWidth | pyfind.py:127 | a number below `10^w` renders in at most `w` digits |
| Printer.DisplayText | pyfind.py:128-130 | the hit text is the stripped line when that is at most 67 characters long; otherwise it is the stripped line's first 64 characters followed by "...". Either way it is never longer than 67 |
| Printer.Render | pyfind.py:91-132 | every console line ends with what it announces: a folder header with the folder, a file header is the bare file name, a hit line with the hit text after a line number of at least six columns and ": ", and the summary is at least 75 wide |
| Printer.SummaryLineShape | pyfind.py:91-94 | the summary is "N matches / N files / N folders", right-justified with spaces to 75 columns |
| Printer.FolderHeaderShape | pyfind.py:117-118 | a folder header is abs(74 - len(folder)) dashes, then a space, then the folder; it is exactly 75 wide when the folder name is at most 74 long |
| Printer.HitLineWidth | pyfind.py:127-132 | a hit line for a line number below one million is at most 75 characters wide |
| Printer.RunHitsInOrder | pyfind.py:125-132 | displaying a sequence of matches prints exactly one hit line per match, in order. It prints none when hits are suppressed |
| Printer.RunNoFiles | pyfind.py:116-123 | with `nofiles`, no folder or file header is ever printed and both fields keep their initial empty value |
| Printer.RunSeenLast | pyfind.py:116-123 | without `nofiles`, the fields hold the folder and file name of the last match displayed |
| Printer.RunFolderHeaders | pyfind.py:116-119 | without `nofiles`, a folder header is printed exactly where a match's folder differs from the previous match's (or from the initial empty value) |
| Printer.RunFileHeaders | pyfind.py:121-123 | without `nofiles`, a file header is printed exactly where a match's file name differs from the previous match's (or from the initial empty value), whether or not the folder changes too |
| Printer.SameFileNameNewFolder | pyfind.py:116-123 | the file name is not reset on a folder change: a match in a new folder whose file name equals the previous one's prints a folder header but no file header |
| Printer.MatchPrinter.constructor | pyfind.py:100-102 | a new printer has empty `folder` and `filename`, has printed nothing and has displayed no match |
| Printer.MatchPrinter.Display | pyfind.py:104-132 | `display` updates each field only when the match's value differs and `nofiles` is false. It appends that step's headers and hit line to the console. It adds `m` to the matches displayed so far (the ghost field `shown`) and keeps the printer in the state that displaying `shown` in order leaves it in |
| PyFind.LastDotSpec | pyfind.py:60 | the last-dot search finds the last '.' of a name, or reports that there is none |
| PyFind.LastDotUnique | pyfind.py:60 | a '.' with no '.' after it is the one the last-dot search finds |
| PyFind.ExtSpec | pyfind.py:60 | `splitext` gives an extension exactly when the last '.' has a character other than '.' somewhere before it, and the extension is the name from that '.' on |
| PyFind.EffectiveTypes | pyfind.py:48-49 | without file types the list `[".py"]` is used; otherwise the given list is used unchanged |
| PyFind.Visited | pyfind.py:54-56 | with `subdirs`, every folder of the walk is visited; without it, only the start folder is |
| PyFind.LineMatchesIff | pyfind.py:63-67 | a match is recorded for a file exactly when it names line k + 1 of the file with that line's text, and that line contains the term, both lower-cased |
| PyFind.LineMatchesOrdered | pyfind.py:63-67 | within one file, line numbers are 1-based and strictly increasing, and each match holds the text of the line it numbers |
| PyFind.FilesMatchesIff | pyfind.py:59-67 | a folder's matches are exactly the line matches of its files whose lower-cased extension is in the list |
| PyFind.WalkMatchesIff | pyfind.py:54-67 | the matches of the walk are exactly the file matches of the folders that are not skipped for lacking a marker |
| PyFind.SearchIff | pyfind.py:46-68 | `get_matches` returns a match exactly when the term is non-empty and the match is a matching line of an in-scope file in a visited folder that is not skipped |
| PyFind.SearchHitsContainTerm | pyfind.py:63-67 | every returned match has a non-empty term, contains it ignoring case, and has a line number of at least 1 |
| PyFind.SearchDefaultsToPy | pyfind.py:48-60 | without file types, every match comes from a file whose lower-cased extension is ".py" |
| PyFind.SearchOnlyStartFolder | pyfind.py:54-56 | without `subdirs`, every match comes from the start folder |
| PyFind.SearchOnlyMarkedFolders | pyfind.py:57-58 | with `pyfind`, every match comes from a folder that holds `_pyfind` |
| PyFind.NoDupsCard | pyfind.py:86-89 | a list built without repeats has as many distinct elements as entries |
| PyFind.DistinctBounds | pyfind.py:91-92 | a list has at most as many distinct elements as entries, and at least one when non-empty |
| PyFind.SummaryBounds | pyfind.py:91-92 | both distinct counts of the summary are at most the number of matches, and at least 1 when there is a match |
| PyFind.PrintSummary | pyfind.py:75-94 | the loop that builds the lists of unseen folders and file names yields the number of matches, of distinct bare file names and of distinct folders |
| PyFind.SearchLines | pyfind.py:62-68 | scanning one file records and displays, in order, exactly the matches of its lines. The printer moves from the state of the matches shown before to that state plus these matches |
| PyFind.SearchFile | pyfind.py:59-68 | a file is scanned only when its lower-cased extension is in the list; otherwise nothing is recorded or displayed |
| PyFind.SearchFolder | pyfind.py:57-68 | a folder without the marker is skipped when `pyfind` is set; otherwise its files are searched in order |
| PyFind.SearchWalk | pyfind.py:53-68 | the walk loop, pruned after the start folder without `subdirs`, records the matches of every visited folder in walk order. The printer ends in the state of having displayed exactly those matches |
| PyFind.GetMatches | pyfind.py:31-72 | an empty term returns no matches and prints nothing. Otherwise the result is the search result, and the console holds each match displayed in order followed by the summary line |
| PyFind.GetMatchesDisplaysEachOnce | pyfind.py:67-68 | the hit lines on the console are those of the returned matches, one per match and in the same order, unless hits are suppressed |
| TodoSearch.GetTodoFiles | todo_search.py:25-31 | no more paths than lines in the listing |
| TodoSearch.TodoPathsLength | todo_search.py:29-31 | the comprehension yields at most one path per line |
| TodoSearch.TodoPathsIff | todo_search.py:29-31 | a path is listed exactly when some line that is non-blank after stripping gives it: the stripped line from offset 13, then `\_todo.txt` |
| TodoSearch.TodoPathsEndInName | todo_search.py:29 | every listed path ends with `\_todo.txt` |
| TodoSearch.TodoPathsAppend | todo_search.py:29-31 | the comprehension keeps line order: the paths of two runs of lines are those of the first, then those of the second |
| TodoSearch.GetTodoFilesAppend | todo_search.py:29-31 | two listings joined by a newline list the files of the first, then those of the second |
| TodoSearch.GetTodoFilesOneLine | todo_search.py:29-31 | a one-line listing lists exactly that line's path, or nothing if the line is blank after stripping |
| TodoSearch.HeaderTextOfListedFile | todo_search.py:20 | for a listed path, `filename[25:-10]` is its folder part with the first 25 characters dropped |
| TodoSearch.Header | todo_search.py:20 | the header is "\n" followed by `filename[25:-10]` padded with '-' to at least 80 characters |
| TodoSearch.HitLinesIff | todo_search.py:17-18 | a line is printed as a hit exactly when it is a line of the lower-cased text and contains the lower-cased term |
| TodoSearch.HitLinesFrom | todo_search.py:17-22 | every hit line is a line of the file |
| TodoSearch.FileReportHeaderOnce | todo_search.py:16-21 | a file's header is printed exactly when one of its lines is a hit. It comes before the first hit line and appears once, since no hit line contains "\n" |
| TodoSearch.FileReportHitsLowerCase | todo_search.py:17-22 | every printed hit line is lower case and a whole line of the lower-cased text |
| TodoSearch.SearchTodoFile | todo_search.py:15-22 | the per-file loop with the `hits_found` flag prints the file's report: the header once before the first hit, then every hit line |
| TodoSearch.SearchTodos | todo_search.py:11-22 | `main` prints the reports of all listed files, in listing order |

## Left out

- The click command line (`cli`, its options, the `__main__` blocks) and console colours: they are argument parsing and presentation. Console lines are events, and `Render` gives their text.
- File-system and process I/O are inputs, not performed:
  - `os.walk`, `os.path.isfile` and `open` in `get_matches`;
  - `subprocess.getoutput` and `Path.read_text` in `todo_search.py`.
  - The walk is a sequence of folder entries, the listing a string, file contents a function of the path.
  - Errors these calls can raise (a missing file, a file that cannot be decoded) are not modelled.
- A file's lines are taken as Python iterates them. The newline each line keeps is part of its text and is not handled specially.
- The `UnicodeEncodeError` fallback in `display` (pyfind.py:133-137) depends on the terminal's encoding.
- Text.Lower: `str.lower` is modelled for ASCII letters only; other characters are left unchanged.
- PyFind.ExtSpec: `os.path.splitext` is modelled on bare file names, which is what `os.walk` yields. Path separators inside the name are not considered.
- PyFind.SearchFile, PyFind.SearchLines, PyFind.SearchFolder, PyFind.SearchWalk: the nested loops of `get_matches` are split into one method per loop level. The order of the work and of the printing is unchanged.
- PyFind.SearchWalk: `del dirs[:]` is modelled by ending the walk after the start folder. `os.walk` yields nothing more once the start folder's list of subfolders is emptied.
- `config.py`, `setup.py` and the tests. The tests call a `search_file` function that this `pyfind.py` does not define.
