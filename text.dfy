/**
 * String primitives the search tools rely on, written out with the
 * semantics of the Python built-ins they stand for: `str.lower`,
 * `in` on strings, `str.strip`, `str.split`, `str.rjust`/`ljust`,
 * slicing with clamped bounds, and `str(n)` for a natural number.
 */
module Text {

  // ---------------------------------------------------------------------
  // Case folding (`str.lower`, restricted to ASCII letters)
  // ---------------------------------------------------------------------

  predicate IsUpper(c: char) {
    'A' <= c <= 'Z'
  }

  function LowerChar(c: char): (d: char)
    ensures !IsUpper(d)
    ensures IsUpper(c) ==> d as int == c as int + 32
    ensures !IsUpper(c) ==> d == c
  {
    if IsUpper(c) then (c as int + 32) as char else c
  }

  /** A string with no upper-case letter in it. */
  predicate IsLowerCase(s: string) {
    forall i :: 0 <= i < |s| ==> !IsUpper(s[i])
  }

  function Lower(s: string): (r: string)
    ensures |r| == |s|
    ensures forall i :: 0 <= i < |s| ==> r[i] == LowerChar(s[i])
  {
    seq(|s|, i requires 0 <= i < |s| => LowerChar(s[i]))
  }

  /** The lower-case form has no upper-case letter. */
  lemma LowerIsLowerCase(s: string)
    ensures IsLowerCase(Lower(s))
  {
  }

  /** Lower-casing twice is lower-casing once. */
  lemma LowerIdempotent(s: string)
    ensures Lower(Lower(s)) == Lower(s)
  {
  }

  // ---------------------------------------------------------------------
  // Substring test (Python's `t in s` on strings)
  // ---------------------------------------------------------------------

  /** `t` occurs in `s` starting at offset `i`. */
  ghost predicate OccursAt(t: string, s: string, i: int) {
    0 <= i && i + |t| <= |s| && s[i..i + |t|] == t
  }

  lemma OccursShift(t: string, s: string)
    requires |t| <= |s| && s[..|t|] != t
    ensures (exists i :: OccursAt(t, s, i)) <==> (exists j :: OccursAt(t, s[1..], j))
  {
    if i :| OccursAt(t, s, i) {
      assert i != 0;
      assert s[1..][i - 1..i - 1 + |t|] == s[i..i + |t|];
      assert OccursAt(t, s[1..], i - 1);
    }
    if j :| OccursAt(t, s[1..], j) {
      assert s[1..][j..j + |t|] == s[j + 1..j + 1 + |t|];
      assert OccursAt(t, s, j + 1);
    }
  }

  /** `t in s`, by trying each offset from the left. */
  function Contains(t: string, s: string): bool
    decreases |s|
  {
    if |t| > |s| then false
    else if s[..|t|] == t then true
    else Contains(t, s[1..])
  }

  /** `t in s` holds exactly when `t` occurs at some offset of `s` (so the
      empty string is in every string). */
  lemma {:induction false} ContainsIff(t: string, s: string)
    ensures Contains(t, s) <==> exists i :: OccursAt(t, s, i)
    decreases |s|
  {
    if |t| > |s| {
    } else if s[..|t|] == t {
      assert OccursAt(t, s, 0);
    } else {
      OccursShift(t, s);
      ContainsIff(t, s[1..]);
    }
  }

  // ---------------------------------------------------------------------
  // Whitespace stripping (`str.strip()` with no argument)
  // ---------------------------------------------------------------------

  /** The code points for which Python's `str.isspace` holds. */
  predicate IsSpace(c: char) {
    var n := c as int;
    (9 <= n <= 13) || (28 <= n <= 32) || n == 0x85 || n == 0xA0 || n == 0x1680
    || (0x2000 <= n <= 0x200A) || n == 0x2028 || n == 0x2029 || n == 0x202F
    || n == 0x205F || n == 0x3000
  }

  /** `s.lstrip()`: drop whitespace from the front. */
  function StripLeft(s: string): string {
    if s != [] && IsSpace(s[0]) then StripLeft(s[1..]) else s
  }

  /** `s.rstrip()`: drop whitespace from the back. */
  function StripRight(s: string): string {
    if s != [] && IsSpace(s[|s| - 1]) then StripRight(s[..|s| - 1]) else s
  }

  /** `s.strip()`: drop whitespace from both ends. */
  function Strip(s: string): string {
    StripRight(StripLeft(s))
  }

  /** `lstrip` leaves the longest suffix that does not start with whitespace. */
  lemma {:induction false} StripLeftSpec(s: string)
    ensures var r := StripLeft(s);
            && |r| <= |s| && r == s[|s| - |r|..]
            && (forall k :: 0 <= k < |s| - |r| ==> IsSpace(s[k]))
            && (r != [] ==> !IsSpace(r[0]))
  {
    if s != [] && IsSpace(s[0]) {
      StripLeftSpec(s[1..]);
      var r := StripLeft(s[1..]);
      assert s[1..][|s| - 1 - |r|..] == s[|s| - |r|..];
      assert forall k :: 1 <= k < |s| ==> s[k] == s[1..][k - 1];
    }
  }

  /** `rstrip` leaves the longest prefix that does not end with whitespace. */
  lemma {:induction false} StripRightSpec(s: string)
    ensures var r := StripRight(s);
            && |r| <= |s| && r == s[..|r|]
            && (forall k :: |r| <= k < |s| ==> IsSpace(s[k]))
            && (r != [] ==> !IsSpace(r[|r| - 1]))
  {
    if s != [] && IsSpace(s[|s| - 1]) {
      StripRightSpec(s[..|s| - 1]);
      var r := StripRight(s[..|s| - 1]);
      assert s[..|s| - 1][..|r|] == s[..|r|];
    }
  }

  /** `strip` leaves the slice `s[i..j]` with only whitespace outside it and
      no whitespace at either of its ends. */
  lemma StripSpec(s: string)
    ensures exists i, j ::
              && 0 <= i <= j <= |s| && Strip(s) == s[i..j]
              && (forall k :: 0 <= k < i ==> IsSpace(s[k]))
              && (forall k :: j <= k < |s| ==> IsSpace(s[k]))
    ensures Strip(s) != [] ==> !IsSpace(Strip(s)[0]) && !IsSpace(Strip(s)[|Strip(s)| - 1])
  {
    var left := StripLeft(s);
    StripLeftSpec(s);
    StripRightSpec(left);
    var r := StripRight(left);
    var i := |s| - |left|;
    var j := i + |r|;
    assert r == s[i..j];
    assert forall k :: j <= k < |s| ==> s[k] == left[k - i];
  }

  /** Stripping is idempotent. */
  lemma StripIdempotent(s: string)
    ensures Strip(Strip(s)) == Strip(s)
  {
    var r := Strip(s);
    StripSpec(s);
    assert StripLeft(r) == r;
    assert StripRight(r) == r;
  }

  // ---------------------------------------------------------------------
  // Splitting and joining on a separator (`s.split(sep)`, `sep.join(parts)`)
  // ---------------------------------------------------------------------

  /** `s.split(sep)` for a one-character separator: always at least one
      part, and no part contains the separator. */
  function Split(s: string, sep: char): (parts: seq<string>)
    ensures |parts| >= 1
    ensures forall p :: p in parts ==> sep !in p
  {
    if s == [] then [""]
    else
      var rest := Split(s[1..], sep);
      if s[0] == sep then [""] + rest
      else [[s[0]] + rest[0]] + rest[1..]
  }

  function Join(parts: seq<string>, sep: char): string
    requires |parts| >= 1
  {
    if |parts| == 1 then parts[0] else parts[0] + [sep] + Join(parts[1..], sep)
  }

  /** Joining the parts of a split gives back the original string. */
  lemma {:induction false} JoinSplit(s: string, sep: char)
    ensures Join(Split(s, sep), sep) == s
  {
    if s != [] {
      var rest := Split(s[1..], sep);
      JoinSplit(s[1..], sep);
      if s[0] == sep {
        assert Split(s, sep)[1..] == rest;
      } else {
        var parts := Split(s, sep);
        if |rest| == 1 {
          assert parts == [[s[0]] + rest[0]];
        } else {
          assert parts[1..] == rest[1..];
          assert Join(rest, sep) == rest[0] + [sep] + Join(rest[1..], sep);
        }
      }
    }
  }

  /** Splitting a join of separator-free parts gives back the parts. */
  lemma {:induction false} SplitJoin(parts: seq<string>, sep: char)
    requires |parts| >= 1
    requires forall p :: p in parts ==> sep !in p
    ensures Split(Join(parts, sep), sep) == parts
  {
    if |parts| == 1 {
      SplitNoSep(parts[0], sep);
    } else {
      SplitJoin(parts[1..], sep);
      SplitAppend(parts[0], Join(parts[1..], sep), sep);
      SplitNoSep(parts[0], sep);
      assert parts == [parts[0]] + parts[1..];
    }
  }

  /** A string without the separator splits into itself. */
  lemma {:induction false} SplitNoSep(s: string, sep: char)
    requires sep !in s
    ensures Split(s, sep) == [s]
  {
    if s != [] {
      SplitNoSep(s[1..], sep);
      assert [s[0]] + s[1..] == s;
    }
  }

  /** Splitting `a + sep + b` splits `a` and `b` separately. */
  lemma {:induction false} SplitAppend(a: string, b: string, sep: char)
    ensures Split(a + [sep] + b, sep) == Split(a, sep) + Split(b, sep)
  {
    if a == [] {
      assert a + [sep] + b == [sep] + b;
      assert ([sep] + b)[1..] == b;
    } else {
      var s := a + [sep] + b;
      assert s[0] == a[0] && s[1..] == a[1..] + [sep] + b;
      SplitAppend(a[1..], b, sep);
      var ra := Split(a[1..], sep);
      var rb := Split(b, sep);
      if a[0] == sep {
        assert Split(s, sep) == [""] + (ra + rb);
        assert Split(a, sep) == [""] + ra;
      } else {
        assert Split(s, sep) == [[a[0]] + ra[0]] + (ra + rb)[1..];
        assert (ra + rb)[1..] == ra[1..] + rb;
        assert Split(a, sep) == [[a[0]] + ra[0]] + ra[1..];
      }
    }
  }

  /** Every character of every part of a split is a character of the input. */
  lemma {:induction false} SplitChars(s: string, sep: char)
    ensures forall p, c :: p in Split(s, sep) && c in p ==> c in s
  {
    if s != [] {
      SplitChars(s[1..], sep);
      var rest := Split(s[1..], sep);
      forall p, c | p in Split(s, sep) && c in p
        ensures c in s
      {
        if s[0] != sep && p == [s[0]] + rest[0] && c != s[0] {
          assert c in rest[0];
        }
      }
    }
  }

  /** Every part of the split of a lower-case string is lower case. */
  lemma SplitLowerCase(s: string, sep: char)
    requires IsLowerCase(s)
    ensures forall p :: p in Split(s, sep) ==> IsLowerCase(p)
  {
    SplitChars(s, sep);
    forall p | p in Split(s, sep)
      ensures IsLowerCase(p)
    {
      forall i | 0 <= i < |p|
        ensures !IsUpper(p[i])
      {
        assert p[i] in p;
      }
    }
  }

  // ---------------------------------------------------------------------
  // Padding (`str.rjust(width, fill)`, `str.ljust(width, fill)`)
  // ---------------------------------------------------------------------

  function Repeat(c: char, n: nat): (r: string)
    ensures |r| == n && forall k :: 0 <= k < n ==> r[k] == c
  {
    seq(n, _ => c)
  }

  function Max(a: int, b: int): int {
    if a < b then b else a
  }

  function Abs(a: int): nat {
    if a < 0 then -a else a
  }

  /** `s.rjust(width, fill)`: `s` ends the result, which is at least `width` long. */
  function RJust(s: string, width: int, fill: char): (r: string)
    ensures |r| == Max(width, |s|)
    ensures r[|r| - |s|..] == s
    ensures forall k :: 0 <= k < |r| - |s| ==> r[k] == fill
  {
    if |s| >= width then s else Repeat(fill, width - |s|) + s
  }

  /** `s.ljust(width, fill)`: `s` starts the result, which is at least `width` long. */
  function LJust(s: string, width: int, fill: char): (r: string)
    ensures |r| == Max(width, |s|)
    ensures r[..|s|] == s
    ensures forall k :: |s| <= k < |r| ==> r[k] == fill
  {
    if |s| >= width then s else s + Repeat(fill, width - |s|)
  }

  // ---------------------------------------------------------------------
  // Python slicing with clamped bounds
  // ---------------------------------------------------------------------

  /** `s[lo:hi]` for `0 <= lo` and `hi` given as an absolute offset that may be
      negative or past the end (Python clamps both, and an empty range gives ""). */
  function Slice(s: string, lo: nat, hi: int): (r: string)
    ensures |r| <= |s|
    ensures lo < hi <= |s| ==> r == s[lo..hi]
    ensures hi <= lo || |s| <= lo ==> r == ""
  {
    var a := if lo < |s| then lo else |s|;
    var b := if hi < 0 then 0 else if hi < |s| then hi else |s|;
    if a < b then s[a..b] else ""
  }

  // ---------------------------------------------------------------------
  // Decimal rendering of natural numbers (`str(n)`)
  // ---------------------------------------------------------------------

  predicate IsDigit(c: char) {
    '0' <= c <= '9'
  }

  function DigitChar(d: nat): (c: char)
    requires d < 10
    ensures IsDigit(c) && c as int - '0' as int == d
  {
    ('0' as int + d) as char
  }

  function NatToString(n: nat): (r: string)
    ensures |r| >= 1
    ensures forall i :: 0 <= i < |r| ==> IsDigit(r[i])
    ensures |r| > 1 ==> r[0] != '0'
  {
    if n < 10 then [DigitChar(n)] else NatToString(n / 10) + [DigitChar(n % 10)]
  }

  /** The value of a string of decimal digits. */
  function DigitsValue(s: string): nat
    requires forall i :: 0 <= i < |s| ==> IsDigit(s[i])
  {
    if s == [] then 0
    else
      assert IsDigit(s[|s| - 1]);
      DigitsValue(s[..|s| - 1]) * 10 + (s[|s| - 1] as int - '0' as int)
  }

  /** Reading back the rendered digits gives the number. */
  lemma {:induction false} NatToStringValue(n: nat)
    ensures DigitsValue(NatToString(n)) == n
  {
    if n >= 10 {
      NatToStringValue(n / 10);
      var r := NatToString(n);
      assert r[..|r| - 1] == NatToString(n / 10);
    }
  }

  /** A number below `10^w` renders in at most `w` digits. */
  lemma {:induction false} NatToStringWidth(n: nat, w: nat)
    requires 1 <= w && n < Pow10(w)
    ensures |NatToString(n)| <= w
  {
    if n >= 10 {
      NatToStringWidth(n / 10, w - 1);
    }
  }

  function Pow10(w: nat): (p: nat)
    ensures p >= 1
  {
    if w == 0 then 1 else 10 * Pow10(w - 1)
  }
}
