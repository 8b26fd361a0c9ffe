/**
 * The console side of pyfind: the match record, the lines written to the
 * console (as events, colours dropped), the display text of a hit, and the
 * `MatchPrinter` state machine that prints folder and file headers only
 * when they change.
 */
module Printer {
  import opened Text

  /** One search hit: `{folder, filename, lineno, linetext}`. */
  datatype Match = Match(folder: string, filename: string, lineno: nat, linetext: string)

  /** One line written to the console. */
  datatype Event =
    | FolderHeader(folder: string)                        // dashes, a space, the folder
    | FileHeader(filename: string)                        // the bare file name
    | HitLine(lineno: nat, text: string)                  // right-justified line number, ": ", text
    | SummaryLine(matches: nat, files: nat, folders: nat) // "N matches / N files / N folders"

  /** Width of the hit text on screen, and the part of it kept before "...". */
  const HitWidth: nat := 67
  const HitKeep: nat := 64

  /** The text shown for a hit: the stripped line, cut to 64 characters plus
      "..." when it is longer than 67. */
  function DisplayText(linetext: string): (r: string)
    ensures |r| <= HitWidth
    ensures |Strip(linetext)| <= HitWidth ==> r == Strip(linetext)
    ensures |Strip(linetext)| > HitWidth ==>
              |r| == HitWidth && r[..HitKeep] == Strip(linetext)[..HitKeep]
              && r[HitKeep..] == "..."
  {
    var t := Strip(linetext);
    if |t| > HitWidth then t[..HitKeep] + "..." else t
  }

  /** The text of a console line. Every line ends with what it announces:
      the folder, the file name, the hit text, or the three counts; a hit
      line's number takes at least six columns and a summary at least 75. */
  function Render(e: Event): (r: string)
    ensures e.FolderHeader? ==> |r| >= |e.folder| && r[|r| - |e.folder|..] == e.folder
    ensures e.FileHeader? ==> r == e.filename
    ensures e.HitLine? ==>
              |r| == Max(6, |NatToString(e.lineno)|) + 2 + |e.text| && r[|r| - |e.text|..] == e.text
    ensures e.SummaryLine? ==> |r| >= 75
  {
    match e
    case FolderHeader(folder) => Repeat('-', Abs(74 - |folder|)) + " " + folder
    case FileHeader(filename) => filename
    case HitLine(lineno, text) => RJust(NatToString(lineno), 6, ' ') + ": " + text
    case SummaryLine(m, fi, fo) =>
      RJust(NatToString(m) + " matches / " + NatToString(fi) + " files / "
            + NatToString(fo) + " folders", 75, ' ')
  }

  /** The summary line is "N matches / N files / N folders", right-justified
      in 75 columns with spaces. */
  lemma SummaryLineShape(matches: nat, files: nat, folders: nat)
    ensures var text := NatToString(matches) + " matches / " + NatToString(files) + " files / "
                        + NatToString(folders) + " folders";
            var r := Render(SummaryLine(matches, files, folders));
            && |r| == Max(75, |text|)
            && r[|r| - |text|..] == text
            && (forall k :: 0 <= k < |r| - |text| ==> r[k] == ' ')
  {
  }

  /** A folder header ends with the folder, after |74 - len(folder)| dashes and a
      space; for a folder name of at most 74 characters it is exactly 75 wide. */
  lemma FolderHeaderShape(folder: string)
    ensures var r := Render(FolderHeader(folder));
            var d := Abs(74 - |folder|);
            && |r| == d + 1 + |folder|
            && (forall k :: 0 <= k < d ==> r[k] == '-')
            && r[d] == ' ' && r[d + 1..] == folder
            && (|folder| <= 74 ==> |r| == 75)
  {
    var d := Abs(74 - |folder|);
    var r := Render(FolderHeader(folder));
    assert r == Repeat('-', d) + " " + folder;
    assert r[d + 1..] == folder;
  }

  /** A hit line for a line number below one million is at most 75 wide
      (six columns of number, ": ", and at most 67 characters of text). */
  lemma {:induction false} HitLineWidth(lineno: nat, linetext: string)
    requires lineno < 1000000
    ensures |Render(HitLine(lineno, DisplayText(linetext)))| <= 75
  {
    assert Pow10(6) == 1000000 by {
      assert Pow10(1) == 10 && Pow10(2) == 100 && Pow10(3) == 1000;
      assert Pow10(4) == 10000 && Pow10(5) == 100000;
    }
    NatToStringWidth(lineno, 6);
  }

  // ---------------------------------------------------------------------
  // The MatchPrinter state machine, as functions
  // ---------------------------------------------------------------------

  /** What the printer last announced: `self.folder`, `self.filename`. */
  datatype Seen = Seen(folder: string, filename: string)

  const Initial := Seen("", "")

  /** The fields after displaying `m`: each is set to the match's value when it
      differs and `nofiles` is false. The file name is not reset when only the
      folder changes. */
  function NextSeen(s: Seen, m: Match, nofiles: bool): Seen {
    var folder := if m.folder != s.folder && !nofiles then m.folder else s.folder;
    var filename := if m.filename != s.filename && !nofiles then m.filename else s.filename;
    Seen(folder, filename)
  }

  /** The console lines written when displaying `m` in state `s`. */
  function StepEvents(s: Seen, m: Match, nohits: bool, nofiles: bool): seq<Event> {
    (if m.folder != s.folder && !nofiles then [FolderHeader(m.folder)] else [])
    + (if m.filename != s.filename && !nofiles then [FileHeader(m.filename)] else [])
    + (if !nohits then [HitLine(m.lineno, DisplayText(m.linetext))] else [])
  }

  /** The fields after displaying every match of `ms` in order, from a fresh printer. */
  function RunSeen(ms: seq<Match>, nofiles: bool): Seen {
    if ms == [] then Initial
    else NextSeen(RunSeen(ms[..|ms| - 1], nofiles), ms[|ms| - 1], nofiles)
  }

  /** The console lines written when displaying every match of `ms` in order,
      from a fresh printer. */
  function RunEvents(ms: seq<Match>, nohits: bool, nofiles: bool): seq<Event> {
    if ms == [] then []
    else
      var init := ms[..|ms| - 1];
      RunEvents(init, nohits, nofiles) + StepEvents(RunSeen(init, nofiles), ms[|ms| - 1], nohits, nofiles)
  }

  /** Displaying one more match extends both folds by one step. */
  lemma RunSnoc(ms: seq<Match>, m: Match, nohits: bool, nofiles: bool)
    ensures RunSeen(ms + [m], nofiles) == NextSeen(RunSeen(ms, nofiles), m, nofiles)
    ensures RunEvents(ms + [m], nohits, nofiles)
            == RunEvents(ms, nohits, nofiles) + StepEvents(RunSeen(ms, nofiles), m, nohits, nofiles)
  {
    assert (ms + [m])[..|ms|] == ms;
  }

  /** One step of the printer from the state after `ms` is the state after `ms + [m]`. */
  lemma RunStep(ms: seq<Match>, m: Match, nohits: bool, nofiles: bool,
                s0: Seen, out0: seq<Event>, s1: Seen, out1: seq<Event>)
    requires s0 == RunSeen(ms, nofiles) && out0 == RunEvents(ms, nohits, nofiles)
    requires s1 == NextSeen(s0, m, nofiles) && out1 == out0 + StepEvents(s0, m, nohits, nofiles)
    ensures s1 == RunSeen(ms + [m], nofiles) && out1 == RunEvents(ms + [m], nohits, nofiles)
  {
    RunSnoc(ms, m, nohits, nofiles);
  }

  /** The hit lines among `evs`, in order. */
  function Hits(evs: seq<Event>): seq<Event>
  {
    if evs == [] then []
    else Hits(evs[..|evs| - 1]) + (if evs[|evs| - 1].HitLine? then [evs[|evs| - 1]] else [])
  }

  /** The headers among `evs`, in order. */
  function Headers(evs: seq<Event>): seq<Event>
  {
    if evs == [] then []
    else
      var e := evs[|evs| - 1];
      Headers(evs[..|evs| - 1]) + (if e.FolderHeader? || e.FileHeader? then [e] else [])
  }

  /** The folder headers among `evs`, in order. */
  function FolderHeaders(evs: seq<Event>): seq<string>
  {
    if evs == [] then []
    else
      var e := evs[|evs| - 1];
      FolderHeaders(evs[..|evs| - 1]) + (if e.FolderHeader? then [e.folder] else [])
  }

  /** The file headers among `evs`, in order. */
  function FileHeaders(evs: seq<Event>): seq<string>
  {
    if evs == [] then []
    else
      var e := evs[|evs| - 1];
      FileHeaders(evs[..|evs| - 1]) + (if e.FileHeader? then [e.filename] else [])
  }

  lemma {:induction false} HitsAppend(a: seq<Event>, b: seq<Event>)
    ensures Hits(a + b) == Hits(a) + Hits(b)
    decreases |b|
  {
    if b != [] {
      assert (a + b)[..|a + b| - 1] == a + b[..|b| - 1];
      HitsAppend(a, b[..|b| - 1]);
    } else {
      assert a + b == a;
    }
  }

  lemma {:induction false} HeadersAppend(a: seq<Event>, b: seq<Event>)
    ensures Headers(a + b) == Headers(a) + Headers(b)
    decreases |b|
  {
    if b != [] {
      assert (a + b)[..|a + b| - 1] == a + b[..|b| - 1];
      HeadersAppend(a, b[..|b| - 1]);
    } else {
      assert a + b == a;
    }
  }

  lemma {:induction false} FolderHeadersAppend(a: seq<Event>, b: seq<Event>)
    ensures FolderHeaders(a + b) == FolderHeaders(a) + FolderHeaders(b)
    decreases |b|
  {
    if b != [] {
      assert (a + b)[..|a + b| - 1] == a + b[..|b| - 1];
      FolderHeadersAppend(a, b[..|b| - 1]);
    } else {
      assert a + b == a;
    }
  }

  lemma {:induction false} FileHeadersAppend(a: seq<Event>, b: seq<Event>)
    ensures FileHeaders(a + b) == FileHeaders(a) + FileHeaders(b)
    decreases |b|
  {
    if b != [] {
      assert (a + b)[..|a + b| - 1] == a + b[..|b| - 1];
      FileHeadersAppend(a, b[..|b| - 1]);
    } else {
      assert a + b == a;
    }
  }

  /** The hit line shown for `m`. */
  function HitOf(m: Match): Event {
    HitLine(m.lineno, DisplayText(m.linetext))
  }

  lemma HitsSingle(e: Event)
    ensures Hits([e]) == if e.HitLine? then [e] else []
  {
    assert [e][..0] == [];
  }

  lemma HeadersSingle(e: Event)
    ensures Headers([e]) == if e.FolderHeader? || e.FileHeader? then [e] else []
  {
    assert [e][..0] == [];
  }

  lemma FolderHeadersSingle(e: Event)
    ensures FolderHeaders([e]) == if e.FolderHeader? then [e.folder] else []
  {
    assert [e][..0] == [];
  }

  lemma FileHeadersSingle(e: Event)
    ensures FileHeaders([e]) == if e.FileHeader? then [e.filename] else []
  {
    assert [e][..0] == [];
  }

  /** The hit lines shown for `ms`, one per match, in order. */
  function HitsOf(ms: seq<Match>): seq<Event>
  {
    seq(|ms|, i requires 0 <= i < |ms| => HitOf(ms[i]))
  }

  lemma HitsOfSnoc(ms: seq<Match>)
    requires ms != []
    ensures HitsOf(ms) == HitsOf(ms[..|ms| - 1]) + [HitOf(ms[|ms| - 1])]
  {
    var a := HitsOf(ms);
    var b := HitsOf(ms[..|ms| - 1]) + [HitOf(ms[|ms| - 1])];
    assert |a| == |b|;
    forall i | 0 <= i < |a| ensures a[i] == b[i] {
      if i < |ms| - 1 {
        assert ms[..|ms| - 1][i] == ms[i];
      }
    }
  }

  /** The hit lines printed for one display step. */
  lemma StepHits(s: Seen, m: Match, nohits: bool, nofiles: bool)
    ensures Hits(StepEvents(s, m, nohits, nofiles)) == if nohits then [] else [HitOf(m)]
  {
    var fh := if m.folder != s.folder && !nofiles then [FolderHeader(m.folder)] else [];
    var nh := if m.filename != s.filename && !nofiles then [FileHeader(m.filename)] else [];
    var hl := if !nohits then [HitOf(m)] else [];
    assert StepEvents(s, m, nohits, nofiles) == fh + nh + hl;
    HitsAppend(fh + nh, hl);
    HitsAppend(fh, nh);
    if fh != [] { HitsSingle(fh[0]); }
    if nh != [] { HitsSingle(nh[0]); }
    if hl != [] { HitsSingle(hl[0]); }
  }

  /** Every displayed match gets exactly one hit line, in display order
      (and none at all when hits are suppressed). */
  lemma {:induction false} RunHitsInOrder(ms: seq<Match>, nohits: bool, nofiles: bool)
    ensures Hits(RunEvents(ms, nohits, nofiles)) == if nohits then [] else HitsOf(ms)
  {
    if ms != [] {
      var init := ms[..|ms| - 1];
      var m := ms[|ms| - 1];
      var s := RunSeen(init, nofiles);
      var before := RunEvents(init, nohits, nofiles);
      var step := StepEvents(s, m, nohits, nofiles);
      assert RunEvents(ms, nohits, nofiles) == before + step;
      RunHitsInOrder(init, nohits, nofiles);
      HitsAppend(before, step);
      StepHits(s, m, nohits, nofiles);
      HitsOfSnoc(ms);
    }
  }

  /** With `nofiles` set, no header is ever printed and the fields keep their
      initial empty values. */
  lemma {:induction false} RunNoFiles(ms: seq<Match>, nohits: bool)
    ensures Headers(RunEvents(ms, nohits, true)) == []
    ensures RunSeen(ms, true) == Initial
  {
    if ms != [] {
      var init := ms[..|ms| - 1];
      RunNoFiles(init, nohits);
      var step := StepEvents(RunSeen(init, true), ms[|ms| - 1], nohits, true);
      HeadersAppend(RunEvents(init, nohits, true), step);
      if step != [] { HeadersSingle(step[0]); }
    }
  }

  /** With `nofiles` clear, the fields always hold the last displayed match's
      folder and file name. */
  lemma {:induction false} RunSeenLast(ms: seq<Match>, nohits: bool)
    requires ms != []
    ensures RunSeen(ms, false) == Seen(ms[|ms| - 1].folder, ms[|ms| - 1].filename)
  {
  }

  /** The folder before position `i` of `ms`: the previous match's folder, or
      the printer's initial empty value for the first match. */
  function PrevFolder(ms: seq<Match>, i: nat): string
    requires i <= |ms|
  {
    if i == 0 then "" else ms[i - 1].folder
  }

  /** The folders at which `ms` changes folder, in order: exactly the
      positions whose folder differs from the one before. */
  function FolderChanges(ms: seq<Match>): seq<string>
  {
    if ms == [] then []
    else
      var i := |ms| - 1;
      FolderChanges(ms[..i]) + (if ms[i].folder != PrevFolder(ms, i) then [ms[i].folder] else [])
  }

  /** The folder headers printed for one display step with `nofiles` clear. */
  lemma StepFolderHeaders(s: Seen, m: Match, nohits: bool)
    ensures FolderHeaders(StepEvents(s, m, nohits, false))
            == if m.folder != s.folder then [m.folder] else []
  {
    var fh := if m.folder != s.folder then [FolderHeader(m.folder)] else [];
    var nh := if m.filename != s.filename then [FileHeader(m.filename)] else [];
    var hl := if !nohits then [HitOf(m)] else [];
    assert StepEvents(s, m, nohits, false) == fh + nh + hl;
    FolderHeadersAppend(fh + nh, hl);
    FolderHeadersAppend(fh, nh);
    if fh != [] { FolderHeadersSingle(fh[0]); }
    if nh != [] { FolderHeadersSingle(nh[0]); }
    if hl != [] { FolderHeadersSingle(hl[0]); }
  }

  /** With `nofiles` clear, a folder header is printed exactly where the
      folder changes from one match to the next. */
  lemma {:induction false} RunFolderHeaders(ms: seq<Match>, nohits: bool)
    ensures FolderHeaders(RunEvents(ms, nohits, false)) == FolderChanges(ms)
  {
    if ms != [] {
      var i := |ms| - 1;
      var init := ms[..i];
      var m := ms[i];
      var s := RunSeen(init, false);
      var before := RunEvents(init, nohits, false);
      var step := StepEvents(s, m, nohits, false);
      assert RunEvents(ms, nohits, false) == before + step;
      RunFolderHeaders(init, nohits);
      if init != [] {
        RunSeenLast(init, nohits);
      }
      assert s.folder == PrevFolder(ms, i);
      FolderHeadersAppend(before, step);
      StepFolderHeaders(s, m, nohits);
    }
  }

  /** The file name before position `i` of `ms`: the previous match's file
      name, or the printer's initial empty value for the first match. */
  function PrevFilename(ms: seq<Match>, i: nat): string
    requires i <= |ms|
  {
    if i == 0 then "" else ms[i - 1].filename
  }

  /** The file names at which `ms` changes file name, in order: exactly the
      positions whose file name differs from the one before, whatever the
      folder. */
  function FileChanges(ms: seq<Match>): seq<string>
  {
    if ms == [] then []
    else
      var i := |ms| - 1;
      FileChanges(ms[..i]) + (if ms[i].filename != PrevFilename(ms, i) then [ms[i].filename] else [])
  }

  /** The file headers printed for one display step with `nofiles` clear. */
  lemma StepFileHeaders(s: Seen, m: Match, nohits: bool)
    ensures FileHeaders(StepEvents(s, m, nohits, false))
            == if m.filename != s.filename then [m.filename] else []
  {
    var fh := if m.folder != s.folder then [FolderHeader(m.folder)] else [];
    var nh := if m.filename != s.filename then [FileHeader(m.filename)] else [];
    var hl := if !nohits then [HitOf(m)] else [];
    assert StepEvents(s, m, nohits, false) == fh + nh + hl;
    FileHeadersOfThree(fh, nh, hl);
    FileHeadersStep(fh, nh, hl, m.filename, m.filename != s.filename);
  }

  lemma FileHeadersStep(fh: seq<Event>, nh: seq<Event>, hl: seq<Event>, name: string, changed: bool)
    requires fh == [] || (|fh| == 1 && fh[0].FolderHeader?)
    requires hl == [] || (|hl| == 1 && hl[0].HitLine?)
    requires nh == if changed then [FileHeader(name)] else []
    ensures FileHeaders(fh) + FileHeaders(nh) + FileHeaders(hl) == if changed then [name] else []
  {
    if fh != [] { FileHeadersSingle(fh[0]); }
    if nh != [] { FileHeadersSingle(nh[0]); }
    if hl != [] { FileHeadersSingle(hl[0]); }
  }

  lemma FileHeadersOfThree(a: seq<Event>, b: seq<Event>, c: seq<Event>)
    ensures FileHeaders(a + b + c) == FileHeaders(a) + FileHeaders(b) + FileHeaders(c)
  {
    FileHeadersAppend(a + b, c);
    FileHeadersAppend(a, b);
  }

  /** With `nofiles` clear, a file header is printed exactly where the file
      name changes from one match to the next, whether or not the folder
      changes too. */
  lemma {:induction false} RunFileHeaders(ms: seq<Match>, nohits: bool)
    ensures FileHeaders(RunEvents(ms, nohits, false)) == FileChanges(ms)
  {
    if ms != [] {
      var i := |ms| - 1;
      var init := ms[..i];
      var m := ms[i];
      var s := RunSeen(init, false);
      var before := RunEvents(init, nohits, false);
      var step := StepEvents(s, m, nohits, false);
      assert RunEvents(ms, nohits, false) == before + step;
      RunFileHeaders(init, nohits);
      if init != [] {
        RunSeenLast(init, nohits);
      }
      assert s.filename == PrevFilename(ms, i);
      FileHeadersAppend(before, step);
      StepFileHeaders(s, m, nohits);
    }
  }

  /** The file name is not reset on a folder change: a match whose file name
      equals the previous match's, in a different folder, gets a folder header
      and no file header. */
  lemma SameFileNameNewFolder(ms: seq<Match>, m: Match, nohits: bool)
    requires ms != [] && !(m.folder == ms[|ms| - 1].folder)
    requires m.filename == ms[|ms| - 1].filename
    ensures RunEvents(ms + [m], nohits, false)
            == RunEvents(ms, nohits, false) + [FolderHeader(m.folder)]
               + (if nohits then [] else [HitOf(m)])
  {
    assert (ms + [m])[..|ms|] == ms;
    RunSeenLast(ms, nohits);
  }

  // ---------------------------------------------------------------------
  // The MatchPrinter class
  // ---------------------------------------------------------------------

  /** Prints matches as they are found, announcing a folder or a file only
      when it differs from the last one announced. */
  class MatchPrinter {
    var folder: string
    var filename: string
    /** The console lines written so far. */
    var out: seq<Event>

    /** The matches displayed so far, in order. */
    ghost var shown: seq<Match>

    /** The printer is in the state that displaying `shown` in order from a
        fresh printer leaves it in, under one fixed choice of the suppression
        flags. */
    ghost predicate Valid(nohits: bool, nofiles: bool)
      reads this
    {
      && Seen(folder, filename) == RunSeen(shown, nofiles)
      && out == RunEvents(shown, nohits, nofiles)
    }

    constructor ()
      ensures folder == "" && filename == "" && out == [] && shown == []
      ensures forall nohits, nofiles :: Valid(nohits, nofiles)
    {
      folder := "";
      filename := "";
      out := [];
      shown := [];
    }

    /** Display one hit: a folder header if the folder changed, a file header
        if the file name changed (neither when `nofiles`), then the hit line
        unless `nohits`. */
    method Display(m: Match, nohits: bool, nofiles: bool)
      requires Valid(nohits, nofiles)
      modifies this
      ensures Seen(folder, filename) == NextSeen(old(Seen(folder, filename)), m, nofiles)
      ensures out == old(out) + StepEvents(old(Seen(folder, filename)), m, nohits, nofiles)
      ensures shown == old(shown) + [m]
      ensures Valid(nohits, nofiles)
    {
      ghost var before := Seen(folder, filename);
      var written: seq<Event> := [];
      if m.folder != folder && !nofiles {
        written := [FolderHeader(m.folder)];
      }
      if m.filename != filename && !nofiles {
        written := written + [FileHeader(m.filename)];
      }
      if !nohits {
        written := written + [HitLine(m.lineno, DisplayText(m.linetext))];
      }
      assert written == StepEvents(before, m, nohits, nofiles);
      if m.folder != folder && !nofiles {
        folder := m.folder;
      }
      if m.filename != filename && !nofiles {
        filename := m.filename;
      }
      assert Seen(folder, filename) == NextSeen(before, m, nofiles);
      ghost var out0 := out;
      out := out + written;
      assert out == out0 + StepEvents(before, m, nohits, nofiles);
      ghost var ms := shown;
      shown := ms + [m];
      RunStep(ms, m, nohits, nofiles, before, out0, Seen(folder, filename), out);
    }
  }
}
