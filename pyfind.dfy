/**
 * pyfind's search engine: `get_matches` walks a folder tree, keeps the
 * files whose extension is in scope, and records every line that contains
 * the search term (case-insensitively) as a match, handing each match to
 * the `MatchPrinter`; `print_summary` then counts matches, distinct file
 * names and distinct folders.
 *
 * The directory walk is an input: the sequence of folders `os.walk` would
 * yield top-down from the start folder, each with whether it holds a
 * `_pyfind` marker file and its files (base name and lines, in file order).
 */
module PyFind {
  import opened Text
  import opened Printer

  datatype SourceFile = SourceFile(name: string, lines: seq<string>)

  /** One step of the walk: a folder, whether `_pyfind` is in it, its files. */
  datatype WalkEntry = WalkEntry(folder: string, hasMarker: bool, files: seq<SourceFile>)

  // ---------------------------------------------------------------------
  // File extensions (`os.path.splitext(name)[1]`)
  // ---------------------------------------------------------------------

  /** The index of the last '.' in `s`, or -1 when there is none. */
  function LastDot(s: string): (k: int)
    ensures -1 <= k < |s|
  {
    if s == [] then -1
    else if s[|s| - 1] == '.' then |s| - 1
    else LastDot(s[..|s| - 1])
  }

  /** `LastDot` finds the last '.', and -1 means there is none. */
  lemma {:induction false} LastDotSpec(s: string)
    ensures LastDot(s) >= 0 ==> s[LastDot(s)] == '.'
    ensures forall j :: LastDot(s) < j < |s| ==> s[j] != '.'
  {
    if s != [] && s[|s| - 1] != '.' {
      LastDotSpec(s[..|s| - 1]);
    }
  }

  predicate AllDots(s: string) {
    forall i :: 0 <= i < |s| ==> s[i] == '.'
  }

  /** `name` has an extension starting at offset `k`: the last '.', with a
      character other than '.' somewhere before it. */
  ghost predicate ExtStartsAt(name: string, k: int) {
    && 0 <= k < |name| && name[k] == '.'
    && (forall j :: k < j < |name| ==> name[j] != '.')
    && !AllDots(name[..k])
  }

  /** The last '.' is unique. */
  lemma LastDotUnique(name: string, k: int)
    requires 0 <= k < |name| && name[k] == '.'
    requires forall j :: k < j < |name| ==> name[j] != '.'
    ensures k == LastDot(name)
  {
    LastDotSpec(name);
  }

  /** The extension of a base file name as `os.path.splitext` computes it:
      from the last '.', unless everything before that '.' is dots (so a
      leading-dot name such as ".bashrc" has none). */
  function Ext(name: string): string {
    var k := LastDot(name);
    if k > 0 && !AllDots(name[..k]) then name[k..] else ""
  }

  /** `Ext` is the part of the name from the one place an extension can
      start, and empty when there is no such place. */
  lemma ExtSpec(name: string)
    ensures Ext(name) != "" <==> exists k :: ExtStartsAt(name, k)
    ensures forall k :: ExtStartsAt(name, k) ==> Ext(name) == name[k..]
  {
    var k := LastDot(name);
    LastDotSpec(name);
    if k > 0 && !AllDots(name[..k]) {
      assert ExtStartsAt(name, k);
      forall k' | ExtStartsAt(name, k') ensures k' == k { LastDotUnique(name, k'); }
    } else {
      forall k' | ExtStartsAt(name, k') ensures false { LastDotUnique(name, k'); }
    }
  }

  /** The `filetypes` in force: `['.py']` when none were given. */
  function EffectiveTypes(filetypes: seq<string>): (types: seq<string>)
    ensures filetypes == [] ==> types == [".py"]
    ensures filetypes != [] ==> types == filetypes
  {
    if filetypes == [] then [".py"] else filetypes
  }

  /** A file is searched when its lower-cased extension is one of `types`. */
  predicate InScope(name: string, types: seq<string>) {
    Lower(Ext(name)) in types
  }

  /** The folders the walk reaches: all of them, or only the start folder
      when subfolders are not searched. */
  function Visited(walk: seq<WalkEntry>, subdirs: bool): (v: seq<WalkEntry>)
    ensures subdirs ==> v == walk
    ensures !subdirs ==> v == walk[..if |walk| < 1 then |walk| else 1]
  {
    if subdirs || |walk| <= 1 then walk else walk[..1]
  }

  // ---------------------------------------------------------------------
  // What get_matches returns, as functions
  // ---------------------------------------------------------------------

  /** The matches in the lines of one file, in line order; line numbers are 1-based. */
  function LineMatches(term: string, folder: string, name: string, lines: seq<string>): seq<Match>
  {
    if lines == [] then []
    else
      var k := |lines| - 1;
      LineMatches(term, folder, name, lines[..k])
      + (if Contains(Lower(term), Lower(lines[k])) then [Match(folder, name, k + 1, lines[k])] else [])
  }

  /** The matches in the in-scope files of one folder, in file order. */
  function FilesMatches(term: string, types: seq<string>, folder: string, files: seq<SourceFile>): seq<Match>
  {
    if files == [] then []
    else FilesMatches(term, types, folder, files[..|files| - 1]) + FileMatches(term, types, folder, files[|files| - 1])
  }

  /** The matches in one file: none unless the file is in scope. */
  function FileMatches(term: string, types: seq<string>, folder: string, f: SourceFile): seq<Match>
  {
    if InScope(f.name, types) then LineMatches(term, folder, f.name, f.lines) else []
  }

  /** The matches of one folder: none when a `_pyfind` marker is required and missing. */
  function EntryMatches(term: string, types: seq<string>, pyfind: bool, e: WalkEntry): seq<Match>
  {
    if pyfind && !e.hasMarker then [] else FilesMatches(term, types, e.folder, e.files)
  }

  /** The matches of a sequence of folders, in walk order. */
  function WalkMatches(term: string, types: seq<string>, pyfind: bool, entries: seq<WalkEntry>): seq<Match>
  {
    if entries == [] then []
    else
      WalkMatches(term, types, pyfind, entries[..|entries| - 1])
      + EntryMatches(term, types, pyfind, entries[|entries| - 1])
  }

  /** The list `get_matches` returns: empty for an empty term, else the
      matches of every visited folder. */
  function Search(term: string, walk: seq<WalkEntry>, subdirs: bool, filetypes: seq<string>, pyfind: bool): seq<Match>
  {
    if term == "" then []
    else WalkMatches(term, EffectiveTypes(filetypes), pyfind, Visited(walk, subdirs))
  }

  // ---------------------------------------------------------------------
  // Which matches there are: an independent description
  // ---------------------------------------------------------------------

  /** `m` records line `k + 1` of `lines`, and that line contains the term. */
  ghost predicate LineHit(term: string, folder: string, name: string, lines: seq<string>, m: Match) {
    exists k :: 0 <= k < |lines| && m == Match(folder, name, k + 1, lines[k])
                && Contains(Lower(term), Lower(lines[k]))
  }

  /** `m` is a hit in an in-scope file of `files`. */
  ghost predicate FileHit(term: string, types: seq<string>, folder: string, files: seq<SourceFile>, m: Match) {
    exists f :: f in files && InScope(f.name, types) && LineHit(term, folder, f.name, f.lines, m)
  }

  /** `m` is a hit in a folder of `entries` that may be searched. */
  ghost predicate WalkHit(term: string, types: seq<string>, pyfind: bool, entries: seq<WalkEntry>, m: Match) {
    exists e :: e in entries && (!pyfind || e.hasMarker) && FileHit(term, types, e.folder, e.files, m)
  }

  lemma {:induction false} LineMatchesIff(term: string, folder: string, name: string, lines: seq<string>, m: Match)
    ensures m in LineMatches(term, folder, name, lines) <==> LineHit(term, folder, name, lines, m)
  {
    if lines != [] {
      var k := |lines| - 1;
      var init := lines[..k];
      LineMatchesIff(term, folder, name, init, m);
      if LineHit(term, folder, name, init, m) {
        var i :| 0 <= i < |init| && m == Match(folder, name, i + 1, init[i])
                 && Contains(Lower(term), Lower(init[i]));
        assert init[i] == lines[i];
      }
      if LineHit(term, folder, name, lines, m) {
        var i :| 0 <= i < |lines| && m == Match(folder, name, i + 1, lines[i])
                 && Contains(Lower(term), Lower(lines[i]));
        if i < k {
          assert init[i] == lines[i];
          assert LineHit(term, folder, name, init, m);
        }
      }
    }
  }

  /** `r` lists lines of `lines` by 1-based number, each with its own text,
      in strictly increasing order of line number. */
  ghost predicate NumberedInOrder(r: seq<Match>, lines: seq<string>) {
    && (forall i :: 0 <= i < |r| ==> 1 <= r[i].lineno <= |lines| && r[i].linetext == lines[r[i].lineno - 1])
    && (forall i, j :: 0 <= i < j < |r| ==> r[i].lineno < r[j].lineno)
  }

  /** Within one file, matches carry 1-based line numbers in strictly
      increasing order, each naming the line it records. */
  lemma {:induction false} LineMatchesOrdered(term: string, folder: string, name: string, lines: seq<string>)
    ensures NumberedInOrder(LineMatches(term, folder, name, lines), lines)
  {
    if lines != [] {
      var k := |lines| - 1;
      var init := lines[..k];
      LineMatchesOrdered(term, folder, name, init);
      var r0 := LineMatches(term, folder, name, init);
      assert forall i :: 0 <= i < |r0| ==> r0[i].lineno <= k;
      forall i | 0 <= i < |r0|
        ensures r0[i].linetext == lines[r0[i].lineno - 1]
      {
        assert init[r0[i].lineno - 1] == lines[r0[i].lineno - 1];
      }
    }
  }

  lemma FileHitSnoc(term: string, types: seq<string>, folder: string, files: seq<SourceFile>, m: Match)
    requires files != []
    ensures var f := files[|files| - 1];
            FileHit(term, types, folder, files, m)
            <==> FileHit(term, types, folder, files[..|files| - 1], m)
                 || (InScope(f.name, types) && LineHit(term, folder, f.name, f.lines, m))
  {
    var init := files[..|files| - 1];
    assert files == init + [files[|files| - 1]];
  }

  lemma {:induction false} FilesMatchesIff(term: string, types: seq<string>, folder: string, files: seq<SourceFile>, m: Match)
    ensures m in FilesMatches(term, types, folder, files) <==> FileHit(term, types, folder, files, m)
  {
    if files != [] {
      var init := files[..|files| - 1];
      var f := files[|files| - 1];
      var a := FilesMatches(term, types, folder, init);
      assert FilesMatches(term, types, folder, files) == a + FileMatches(term, types, folder, f);
      FilesMatchesIff(term, types, folder, init, m);
      LineMatchesIff(term, folder, f.name, f.lines, m);
      FileHitSnoc(term, types, folder, files, m);
    }
  }

  lemma WalkHitSnoc(term: string, types: seq<string>, pyfind: bool, entries: seq<WalkEntry>, m: Match)
    requires entries != []
    ensures var e := entries[|entries| - 1];
            WalkHit(term, types, pyfind, entries, m)
            <==> WalkHit(term, types, pyfind, entries[..|entries| - 1], m)
                 || ((!pyfind || e.hasMarker) && FileHit(term, types, e.folder, e.files, m))
  {
    var init := entries[..|entries| - 1];
    assert entries == init + [entries[|entries| - 1]];
  }

  lemma {:induction false} WalkMatchesIff(term: string, types: seq<string>, pyfind: bool, entries: seq<WalkEntry>, m: Match)
    ensures m in WalkMatches(term, types, pyfind, entries) <==> WalkHit(term, types, pyfind, entries, m)
  {
    if entries != [] {
      var init := entries[..|entries| - 1];
      var e := entries[|entries| - 1];
      assert WalkMatches(term, types, pyfind, entries)
             == WalkMatches(term, types, pyfind, init) + EntryMatches(term, types, pyfind, e);
      WalkMatchesIff(term, types, pyfind, init, m);
      FilesMatchesIff(term, types, e.folder, e.files, m);
      WalkHitSnoc(term, types, pyfind, entries, m);
    }
  }

  /** A match is returned exactly when the term is non-empty and the match
      records line k + 1 of an in-scope file of a visited, searchable folder,
      a line that contains the term ignoring case. */
  lemma SearchIff(term: string, walk: seq<WalkEntry>, subdirs: bool, filetypes: seq<string>, pyfind: bool, m: Match)
    ensures m in Search(term, walk, subdirs, filetypes, pyfind)
            <==> term != "" && WalkHit(term, EffectiveTypes(filetypes), pyfind, Visited(walk, subdirs), m)
  {
    if term != "" {
      WalkMatchesIff(term, EffectiveTypes(filetypes), pyfind, Visited(walk, subdirs), m);
    }
  }

  /** Every returned line contains the term, ignoring case. */
  lemma SearchHitsContainTerm(term: string, walk: seq<WalkEntry>, subdirs: bool, filetypes: seq<string>, pyfind: bool, m: Match)
    requires m in Search(term, walk, subdirs, filetypes, pyfind)
    ensures term != "" && Contains(Lower(term), Lower(m.linetext)) && m.lineno >= 1
  {
    SearchIff(term, walk, subdirs, filetypes, pyfind, m);
  }

  /** Without `filetypes`, only files whose lower-cased extension is ".py" are searched. */
  lemma SearchDefaultsToPy(term: string, walk: seq<WalkEntry>, subdirs: bool, pyfind: bool, m: Match)
    requires m in Search(term, walk, subdirs, [], pyfind)
    ensures Lower(Ext(m.filename)) == ".py"
  {
    SearchIff(term, walk, subdirs, [], pyfind, m);
  }

  /** Without `subdirs`, every match comes from the start folder. */
  lemma SearchOnlyStartFolder(term: string, walk: seq<WalkEntry>, filetypes: seq<string>, pyfind: bool, m: Match)
    requires m in Search(term, walk, false, filetypes, pyfind)
    ensures walk != [] && m.folder == walk[0].folder
  {
    SearchIff(term, walk, false, filetypes, pyfind, m);
  }

  /** With `pyfind`, every match comes from a folder that holds a `_pyfind` marker. */
  lemma SearchOnlyMarkedFolders(term: string, walk: seq<WalkEntry>, subdirs: bool, filetypes: seq<string>, m: Match)
    requires m in Search(term, walk, subdirs, filetypes, true)
    ensures exists e :: e in walk && e.hasMarker && e.folder == m.folder
  {
    SearchIff(term, walk, subdirs, filetypes, true, m);
    var e :| e in Visited(walk, subdirs) && e.hasMarker && FileHit(term, EffectiveTypes(filetypes), e.folder, e.files, m);
    assert e in walk;
  }

  // ---------------------------------------------------------------------
  // print_summary
  // ---------------------------------------------------------------------

  function Folders(ms: seq<Match>): (r: seq<string>)
    ensures |r| == |ms| && forall i :: 0 <= i < |ms| ==> r[i] == ms[i].folder
  {
    seq(|ms|, i requires 0 <= i < |ms| => ms[i].folder)
  }

  function Filenames(ms: seq<Match>): (r: seq<string>)
    ensures |r| == |ms| && forall i :: 0 <= i < |ms| ==> r[i] == ms[i].filename
  {
    seq(|ms|, i requires 0 <= i < |ms| => ms[i].filename)
  }

  function Elems(s: seq<string>): set<string> {
    set x | x in s
  }

  lemma ElemsSnoc(s: seq<string>, x: string)
    ensures Elems(s + [x]) == Elems(s) + {x}
  {
  }

  predicate NoDups(s: seq<string>) {
    forall i, j :: 0 <= i < j < |s| ==> s[i] != s[j]
  }

  /** A list without repeats has as many distinct elements as entries. */
  lemma {:induction false} NoDupsCard(s: seq<string>)
    requires NoDups(s)
    ensures |Elems(s)| == |s|
  {
    if s != [] {
      var init := s[..|s| - 1];
      NoDupsCard(init);
      assert Elems(s) == Elems(init) + {s[|s| - 1]};
      assert s[|s| - 1] !in Elems(init);
    }
  }

  /** A list has at most as many distinct elements as entries, and at least one when non-empty. */
  lemma {:induction false} DistinctBounds(s: seq<string>)
    ensures |Elems(s)| <= |s|
    ensures s != [] ==> |Elems(s)| >= 1
  {
    if s != [] {
      var init := s[..|s| - 1];
      DistinctBounds(init);
      assert Elems(s) == Elems(init) + {s[|s| - 1]};
    }
  }

  /** The summary line for a hit list: the number of matches, of distinct
      file names (bare names, not paths) and of distinct folders. */
  function SummaryOf(hitlist: seq<Match>): Event {
    SummaryLine(|hitlist|, |Elems(Filenames(hitlist))|, |Elems(Folders(hitlist))|)
  }

  /** Both distinct counts of the summary are at most the number of matches,
      and at least one when there is a match. */
  lemma SummaryBounds(hitlist: seq<Match>)
    ensures SummaryOf(hitlist).files <= SummaryOf(hitlist).matches
    ensures SummaryOf(hitlist).folders <= SummaryOf(hitlist).matches
    ensures hitlist != [] ==> SummaryOf(hitlist).files >= 1 && SummaryOf(hitlist).folders >= 1
  {
    DistinctBounds(Filenames(hitlist));
    DistinctBounds(Folders(hitlist));
  }

  /** Count the matches, distinct file names and distinct folders, building
      the lists of folders and file names seen so far. */
  method PrintSummary(hitlist: seq<Match>) returns (summary: Event)
    ensures summary == SummaryLine(|hitlist|, |Elems(Filenames(hitlist))|, |Elems(Folders(hitlist))|)
  {
    var folders: seq<string> := [];
    var filenames: seq<string> := [];
    for i := 0 to |hitlist|
      invariant NoDups(folders) && Elems(folders) == Elems(Folders(hitlist)[..i])
      invariant NoDups(filenames) && Elems(filenames) == Elems(Filenames(hitlist)[..i])
    {
      var folder := hitlist[i].folder;
      var filename := hitlist[i].filename;
      assert Folders(hitlist)[..i + 1] == Folders(hitlist)[..i] + [folder];
      assert Filenames(hitlist)[..i + 1] == Filenames(hitlist)[..i] + [filename];
      ElemsSnoc(Folders(hitlist)[..i], folder);
      ElemsSnoc(Filenames(hitlist)[..i], filename);
      if folder !in folders {
        ElemsSnoc(folders, folder);
        folders := folders + [folder];
      }
      if filename !in filenames {
        ElemsSnoc(filenames, filename);
        filenames := filenames + [filename];
      }
    }
    assert Folders(hitlist)[..|hitlist|] == Folders(hitlist);
    assert Filenames(hitlist)[..|hitlist|] == Filenames(hitlist);
    NoDupsCard(folders);
    NoDupsCard(filenames);
    summary := SummaryLine(|hitlist|, |filenames|, |folders|);
  }

  // ---------------------------------------------------------------------
  // get_matches
  // ---------------------------------------------------------------------

  lemma FilesMatchesSnoc(term: string, types: seq<string>, folder: string, files: seq<SourceFile>, j: nat)
    requires j < |files|
    ensures FilesMatches(term, types, folder, files[..j + 1])
            == FilesMatches(term, types, folder, files[..j])
               + FileMatches(term, types, folder, files[j])
  {
    assert files[..j + 1][..j] == files[..j];
  }

  lemma ConcatAssoc<T>(a: seq<T>, b: seq<T>, c: seq<T>)
    ensures a + b + c == a + (b + c)
  {
  }

  lemma LineMatchesSnoc(term: string, folder: string, name: string, lines: seq<string>, k: nat)
    requires k < |lines|
    ensures LineMatches(term, folder, name, lines[..k + 1])
            == LineMatches(term, folder, name, lines[..k])
               + (if Contains(Lower(term), Lower(lines[k])) then [Match(folder, name, k + 1, lines[k])] else [])
  {
    assert lines[..k + 1][..k] == lines[..k];
  }

  lemma WalkMatchesSnoc(term: string, types: seq<string>, pyfind: bool, walk: seq<WalkEntry>, i: nat)
    requires i < |walk|
    ensures WalkMatches(term, types, pyfind, walk[..i + 1])
            == WalkMatches(term, types, pyfind, walk[..i]) + EntryMatches(term, types, pyfind, walk[i])
  {
    assert walk[..i + 1][..i] == walk[..i];
  }


  /** Search one file when its lower-cased extension is in `types`. */
  method SearchFile(output: MatchPrinter, searchfor: string, types: seq<string>, folder: string,
                    file: SourceFile, nohits: bool, nofiles: bool)
    returns (found: seq<Match>)
    requires output.Valid(nohits, nofiles)
    modifies output
    ensures found == FileMatches(searchfor, types, folder, file)
    ensures output.shown == old(output.shown) + found
    ensures output.Valid(nohits, nofiles)
  {
    if Lower(Ext(file.name)) in types {
      found := SearchLines(output, searchfor, folder, file, nohits, nofiles);
    } else {
      found := [];
      assert output.shown + found == output.shown;
    }
  }

  /** Scan the lines of one file (numbered from 1), recording and displaying
      each line that contains the term ignoring case. */
  method SearchLines(output: MatchPrinter, searchfor: string, folder: string, file: SourceFile,
                     nohits: bool, nofiles: bool)
    returns (found: seq<Match>)
    requires output.Valid(nohits, nofiles)
    modifies output
    ensures found == LineMatches(searchfor, folder, file.name, file.lines)
    ensures output.shown == old(output.shown) + found
    ensures output.Valid(nohits, nofiles)
  {
    ghost var shown := output.shown;
    found := [];
    assert shown + found == shown;
    for k := 0 to |file.lines|
      invariant found == LineMatches(searchfor, folder, file.name, file.lines[..k])
      invariant output.shown == shown + found
      invariant output.Valid(nohits, nofiles)
    {
      var line := file.lines[k];
      LineMatchesSnoc(searchfor, folder, file.name, file.lines, k);
      if Contains(Lower(searchfor), Lower(line)) {
        var hit := Match(folder, file.name, k + 1, line);
        output.Display(hit, nohits, nofiles);
        found := found + [hit];
        assert output.shown == shown + found by {
          ConcatAssoc(shown, found[..|found| - 1], [hit]);
        }
      }
    }
    assert file.lines[..|file.lines|] == file.lines;
  }

  /** Search one folder of the walk: nothing when `pyfind` is set and the
      folder has no marker file, else the files whose lower-cased extension
      is in `types`. */
  method SearchFolder(output: MatchPrinter, searchfor: string, types: seq<string>, pyfind: bool,
                      entry: WalkEntry, nohits: bool, nofiles: bool)
    returns (found: seq<Match>)
    requires output.Valid(nohits, nofiles)
    modifies output
    ensures found == EntryMatches(searchfor, types, pyfind, entry)
    ensures output.shown == old(output.shown) + found
    ensures output.Valid(nohits, nofiles)
  {
    ghost var shown := output.shown;
    found := [];
    assert shown + found == shown;
    if pyfind && !entry.hasMarker {
      return;
    }
    for j := 0 to |entry.files|
      invariant found == FilesMatches(searchfor, types, entry.folder, entry.files[..j])
      invariant output.shown == shown + found
      invariant output.Valid(nohits, nofiles)
    {
      FilesMatchesSnoc(searchfor, types, entry.folder, entry.files, j);
      var more := SearchFile(output, searchfor, types, entry.folder, entry.files[j], nohits, nofiles);
      ConcatAssoc(shown, found, more);
      found := found + more;
    }
    assert entry.files[..|entry.files|] == entry.files;
  }

  /** Walk the folders from the start folder on, searching each folder that
      is not skipped for lack of a marker file; without `subdirs` the walk
      is pruned after the start folder. */
  method SearchWalk(output: MatchPrinter, searchfor: string, types: seq<string>, walk: seq<WalkEntry>,
                    subdirs: bool, pyfind: bool, nohits: bool, nofiles: bool)
    returns (matchlist: seq<Match>)
    requires output.shown == [] && output.Valid(nohits, nofiles)
    modifies output
    ensures matchlist == WalkMatches(searchfor, types, pyfind, Visited(walk, subdirs))
    ensures output.shown == matchlist
    ensures output.Valid(nohits, nofiles)
  {
    matchlist := [];
    var i := 0;
    // without `subdirs` the walk is pruned after the start folder
    while i < |walk| && (subdirs || i == 0)
      invariant i <= |walk|
      invariant !subdirs ==> i <= 1
      invariant matchlist == WalkMatches(searchfor, types, pyfind, walk[..i])
      invariant output.shown == matchlist
      invariant output.Valid(nohits, nofiles)
    {
      var found := SearchFolder(output, searchfor, types, pyfind, walk[i], nohits, nofiles);
      matchlist := matchlist + found;
      WalkMatchesSnoc(searchfor, types, pyfind, walk, i);
      i := i + 1;
    }
    assert walk[..i] == Visited(walk, subdirs);
  }

  /** Search the walk for `searchfor`, displaying each match as it is found
      and the summary at the end; returns the matches and the console lines. */
  method GetMatches(searchfor: string, walk: seq<WalkEntry>, subdirs: bool, filetypes: seq<string>,
                    pyfind: bool, nohits: bool, nofiles: bool)
    returns (matchlist: seq<Match>, console: seq<Event>)
    ensures matchlist == Search(searchfor, walk, subdirs, filetypes, pyfind)
    ensures searchfor == "" ==> console == []
    ensures searchfor != "" ==> console == RunEvents(matchlist, nohits, nofiles) + [SummaryOf(matchlist)]
  {
    if searchfor == "" {
      return [], [];
    }
    var types := EffectiveTypes(filetypes);
    var output := new MatchPrinter();
    matchlist := SearchWalk(output, searchfor, types, walk, subdirs, pyfind, nohits, nofiles);
    var summary := PrintSummary(matchlist);
    console := output.out + [summary];
  }

  /** Each returned match is displayed exactly once, in the order returned:
      unless hits are suppressed, the hit lines on the console are those of
      the returned list, one by one. */
  lemma GetMatchesDisplaysEachOnce(matchlist: seq<Match>, nohits: bool, nofiles: bool)
    ensures Hits(RunEvents(matchlist, nohits, nofiles) + [SummaryOf(matchlist)])
            == if nohits then [] else HitsOf(matchlist)
  {
    RunHitsInOrder(matchlist, nohits, nofiles);
    HitsAppend(RunEvents(matchlist, nohits, nofiles), [SummaryOf(matchlist)]);
    HitsSingle(SummaryOf(matchlist));
  }
}
