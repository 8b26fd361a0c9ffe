/**
 * The stand-alone `_todo.txt` search tool: list the `_todo.txt` files that a
 * recursive `dir ... | find "Directory of"` reports, then print, for every
 * file with at least one line containing the term (ignoring case), a header
 * naming the project followed by the matching lines in lower case.
 *
 * The directory listing is the text the shell command printed, and the
 * contents of each file come from `readText`; both are inputs here.
 */
module TodoSearch {
  import opened Text

  // ---------------------------------------------------------------------
  // get_todo_files
  // ---------------------------------------------------------------------

  /** Offset of the folder path in a "Directory of <path>" line. */
  const DirPrefix := 13
  /** The name every listed file gets appended to its folder. */
  const TodoName := "\\_todo.txt"

  /** The `_todo.txt` path for one listing line: the stripped line from
      offset 13 on, followed by `\_todo.txt`. */
  function TodoPath(line: string): string {
    var t := Strip(line);
    Slice(t, DirPrefix, |t|) + TodoName
  }

  /** The paths for the non-blank lines among `lines`, in order. */
  function TodoPaths(lines: seq<string>): seq<string> {
    if lines == [] then []
    else (if Strip(lines[0]) != "" then [TodoPath(lines[0])] else []) + TodoPaths(lines[1..])
  }

  /** `get_todo_files`: one path per non-blank line of the listing. */
  function GetTodoFiles(listing: string): (files: seq<string>)
    ensures |files| <= |Split(listing, '\n')|
  {
    TodoPathsLength(Split(listing, '\n'));
    TodoPaths(Split(listing, '\n'))
  }

  lemma {:induction false} TodoPathsLength(lines: seq<string>)
    ensures |TodoPaths(lines)| <= |lines|
  {
    if lines != [] {
      TodoPathsLength(lines[1..]);
    }
  }

  /** Every listed path ends with `\_todo.txt`. */
  lemma {:induction false} TodoPathsEndInName(lines: seq<string>)
    ensures forall p :: p in TodoPaths(lines) ==> |p| >= |TodoName| && p[|p| - |TodoName|..] == TodoName
  {
    if lines != [] {
      TodoPathsEndInName(lines[1..]);
    }
  }

  /** A path is listed exactly when some non-blank line of the listing gives it. */
  lemma {:induction false} TodoPathsIff(lines: seq<string>, p: string)
    ensures p in TodoPaths(lines) <==> exists k :: 0 <= k < |lines| && Strip(lines[k]) != "" && p == TodoPath(lines[k])
  {
    if lines != [] {
      TodoPathsIff(lines[1..], p);
      if p in TodoPaths(lines[1..]) {
        var k :| 0 <= k < |lines[1..]| && Strip(lines[1..][k]) != "" && p == TodoPath(lines[1..][k]);
        assert lines[k + 1] == lines[1..][k];
      }
      if k :| 0 <= k < |lines| && Strip(lines[k]) != "" && p == TodoPath(lines[k]) {
        if k > 0 {
          assert lines[1..][k - 1] == lines[k];
        }
      }
    }
  }

  lemma {:induction false} TodoPathsAppend(a: seq<string>, b: seq<string>)
    ensures TodoPaths(a + b) == TodoPaths(a) + TodoPaths(b)
  {
    if a == [] {
      assert a + b == b;
    } else {
      assert (a + b)[0] == a[0] && (a + b)[1..] == a[1..] + b;
      TodoPathsAppend(a[1..], b);
    }
  }

  /** The listing is read line by line: two listings joined by a newline
      list the files of the first, then those of the second. */
  lemma GetTodoFilesAppend(a: string, b: string)
    ensures GetTodoFiles(a + "\n" + b) == GetTodoFiles(a) + GetTodoFiles(b)
  {
    SplitAppend(a, b, '\n');
    TodoPathsAppend(Split(a, '\n'), Split(b, '\n'));
  }

  /** A listing of one line lists at most that line's file; a blank one lists none. */
  lemma GetTodoFilesOneLine(line: string)
    requires '\n' !in line
    ensures GetTodoFiles(line) == if Strip(line) != "" then [TodoPath(line)] else []
  {
    SplitNoSep(line, '\n');
    assert [line][1..] == [];
  }

  /** The header text of a listed file, `filename[25:-10]`, is its folder
      path with the first 25 characters dropped. */
  lemma HeaderTextOfListedFile(line: string)
    ensures var p := TodoPath(line);
            var folder := Slice(Strip(line), DirPrefix, |Strip(line)|);
            Slice(p, 25, |p| - 10) == Slice(folder, 25, |folder|)
  {
    var folder := Slice(Strip(line), DirPrefix, |Strip(line)|);
    var p := TodoPath(line);
    assert p == folder + TodoName;
    if 25 < |folder| {
      assert p[25..|p| - 10] == folder[25..];
    }
  }

  // ---------------------------------------------------------------------
  // main
  // ---------------------------------------------------------------------

  /** The header printed before the first hit of a file:
      `"\n" + filename[25:-10].ljust(80, "-")`. */
  function Header(filename: string): (h: string)
    ensures |h| == 1 + Max(80, |Slice(filename, 25, |filename| - 10)|)
    ensures h[0] == '\n'
  {
    "\n" + LJust(Slice(filename, 25, |filename| - 10), 80, '-')
  }

  /** The lines of `lines` that contain the lower-cased term, in order. */
  function HitLines(term: string, lines: seq<string>): seq<string> {
    if lines == [] then []
    else
      var last := lines[|lines| - 1];
      HitLines(term, lines[..|lines| - 1]) + (if Contains(Lower(term), last) then [last] else [])
  }

  /** What is printed for one file: nothing without a hit, else the header
      and then every hit line. */
  function FileReport(term: string, filename: string, lines: seq<string>): seq<string> {
    var hits := HitLines(term, lines);
    if hits == [] then [] else [Header(filename)] + hits
  }

  /** The lines of a file as `main` reads them: lower-cased, split on "\n". */
  function FileLines(text: string): seq<string> {
    Split(Lower(text), '\n')
  }

  /** What `main` prints for `files`, in order. */
  function TodoReport(term: string, files: seq<string>, readText: string -> string): seq<string> {
    if files == [] then []
    else
      var last := files[|files| - 1];
      TodoReport(term, files[..|files| - 1], readText) + FileReport(term, last, FileLines(readText(last)))
  }

  lemma HitLinesSnoc(term: string, lines: seq<string>, j: nat)
    requires j < |lines|
    ensures HitLines(term, lines[..j + 1])
            == HitLines(term, lines[..j]) + (if Contains(Lower(term), lines[j]) then [lines[j]] else [])
  {
    assert lines[..j + 1][..j] == lines[..j];
  }

  lemma TodoReportSnoc(term: string, files: seq<string>, readText: string -> string, i: nat)
    requires i < |files|
    ensures TodoReport(term, files[..i + 1], readText)
            == TodoReport(term, files[..i], readText) + FileReport(term, files[i], FileLines(readText(files[i])))
  {
    assert files[..i + 1][..i] == files[..i];
  }

  /** One more line either leaves a file's report as it is, or adds the
      line, preceded by the header when it is the first hit; `found0` and
      `found1` say whether a hit has been seen before and after it. */
  lemma FileReportStep(term: string, filename: string, lines: seq<string>, j: nat,
                       found0: bool, printed0: seq<string>, found1: bool, printed1: seq<string>)
    requires j < |lines|
    requires found0 <==> HitLines(term, lines[..j]) != []
    requires printed0 == FileReport(term, filename, lines[..j])
    requires found1 == (found0 || Contains(Lower(term), lines[j]))
    requires printed1 == if !Contains(Lower(term), lines[j]) then printed0
                         else if !found0 then printed0 + [Header(filename), lines[j]]
                         else printed0 + [lines[j]]
    ensures found1 <==> HitLines(term, lines[..j + 1]) != []
    ensures printed1 == FileReport(term, filename, lines[..j + 1])
  {
    HitLinesSnoc(term, lines, j);
  }

  /** A line is a hit exactly when it is one of the lines and contains the
      lower-cased term. */
  lemma {:induction false} HitLinesIff(term: string, lines: seq<string>, l: string)
    ensures l in HitLines(term, lines) <==> l in lines && Contains(Lower(term), l)
  {
    if lines != [] {
      var init := lines[..|lines| - 1];
      HitLinesIff(term, init, l);
      assert lines == init + [lines[|lines| - 1]];
    }
  }

  /** Hits are drawn from the lines, so they share every property the lines have. */
  lemma {:induction false} HitLinesFrom(term: string, lines: seq<string>)
    ensures forall h :: h in HitLines(term, lines) ==> h in lines
  {
    if lines != [] {
      var init := lines[..|lines| - 1];
      HitLinesFrom(term, init);
      assert lines == init + [lines[|lines| - 1]];
    }
  }

  /** The header is printed for a file exactly when one of its lines is a
      hit, it comes first, and it is printed once: no hit line of a file
      read with `FileLines` can equal it, because hit lines hold no "\n". */
  lemma FileReportHeaderOnce(term: string, filename: string, text: string)
    ensures var r := FileReport(term, filename, FileLines(text));
            && (r != [] <==> exists l :: l in FileLines(text) && Contains(Lower(term), l))
            && (r != [] ==> r[0] == Header(filename))
            && (forall k :: 0 < k < |r| ==> r[k] != Header(filename))
  {
    var lines := FileLines(text);
    var hits := HitLines(term, lines);
    HitLinesFrom(term, lines);
    if l :| l in lines && Contains(Lower(term), l) {
      HitLinesIff(term, lines, l);
    }
    if hits != [] {
      var h := hits[0];
      assert h in hits;
      HitLinesIff(term, lines, h);
    }
    var r := FileReport(term, filename, lines);
    forall k | 0 < k < |r|
      ensures r[k] != Header(filename)
    {
      assert r[k] == hits[k - 1] && r[k] in hits;
      assert '\n' !in r[k];
      assert Header(filename)[0] == '\n';
    }
  }

  /** Every hit line printed is lower case and a whole line of the file. */
  lemma FileReportHitsLowerCase(term: string, filename: string, text: string)
    ensures var r := FileReport(term, filename, FileLines(text));
            forall k :: 0 < k < |r| ==> IsLowerCase(r[k]) && r[k] in FileLines(text)
  {
    var lines := FileLines(text);
    LowerIsLowerCase(text);
    SplitLowerCase(Lower(text), '\n');
    HitLinesFrom(term, lines);
    var r := FileReport(term, filename, lines);
    forall k | 0 < k < |r|
      ensures IsLowerCase(r[k]) && r[k] in lines
    {
      assert r[k] in HitLines(term, lines);
    }
  }

  /** Print the report for one file whose contents are `text`; the flag
      `hitsFound` records whether the header has been printed. */
  method SearchTodoFile(searchfor: string, filename: string, text: string) returns (printed: seq<string>)
    ensures printed == FileReport(searchfor, filename, FileLines(text))
  {
    var lines := FileLines(text);
    var hitsFound := false;
    printed := [];
    for j := 0 to |lines|
      invariant hitsFound <==> HitLines(searchfor, lines[..j]) != []
      invariant printed == FileReport(searchfor, filename, lines[..j])
    {
      var line := lines[j];
      ghost var found0, printed0 := hitsFound, printed;
      if Contains(Lower(searchfor), line) {
        if !hitsFound {
          printed := printed + [Header(filename)];
          hitsFound := true;
        }
        printed := printed + [line];
      }
      FileReportStep(searchfor, filename, lines, j, found0, printed0, hitsFound, printed);
    }
    assert lines[..|lines|] == lines;
  }

  /** `main`: search every listed `_todo.txt` file for `searchfor`. */
  method SearchTodos(searchfor: string, listing: string, readText: string -> string)
    returns (printed: seq<string>)
    ensures printed == TodoReport(searchfor, GetTodoFiles(listing), readText)
  {
    var files := GetTodoFiles(listing);
    printed := [];
    for i := 0 to |files|
      invariant printed == TodoReport(searchfor, files[..i], readText)
    {
      var report := SearchTodoFile(searchfor, files[i], readText(files[i]));
      TodoReportSnoc(searchfor, files, readText, i);
      printed := printed + report;
    }
    assert files[..|files|] == files;
  }
}
