/** The three string operations the parse loop applies to each line:
    Python's `str.strip()`, `str.split(',')` and `int(token)`. */
module Text {
  import opened Outcomes
  import opened Seqs

  // ---------------------------------------------------------------- strip

  /** Python's `str.isspace()` for one character: the ASCII controls TAB..CR,
      the separators U+001C..U+001F, SPACE, NEL, NO-BREAK SPACE and the
      Unicode space characters. */
  predicate IsSpace(c: char) {
    var n := c as int;
    || 0x09 <= n <= 0x0D
    || 0x1C <= n <= 0x20
    || n == 0x85 || n == 0xA0 || n == 0x1680
    || 0x2000 <= n <= 0x200A
    || n == 0x2028 || n == 0x2029 || n == 0x202F || n == 0x205F || n == 0x3000
  }

  /** The whitespace `int()` skips around a number. CPython maps every
      non-ASCII `str.isspace()` character to a space before it reads, but
      keeps ASCII characters as they are and then skips only TAB..CR and
      SPACE, so the separators U+001C..U+001F are not skipped, although
      `strip()` removes them. */
  predicate IsIntSpace(c: char) {
    IsSpace(c) && !(0x1C <= c as int <= 0x1F)
  }

  /** Where the leading run of `space` characters in `s[i..]` ends. */
  function SpaceEnd(s: string, i: nat, space: char -> bool): (lo: nat)
    requires i <= |s|
    ensures i <= lo <= |s|
    ensures forall k :: i <= k < lo ==> space(s[k])
    ensures lo < |s| ==> !space(s[lo])
    decreases |s| - i
  {
    if i < |s| && space(s[i]) then SpaceEnd(s, i + 1, space) else i
  }

  /** Where the trailing run of `space` characters in `s[lo..hi]` starts. */
  function SpaceStart(s: string, lo: nat, hi: nat, space: char -> bool): (j: nat)
    requires lo <= hi <= |s|
    ensures lo <= j <= hi
    ensures forall k :: j <= k < hi ==> space(s[k])
    ensures j > lo ==> !space(s[j - 1])
    decreases hi
  {
    if hi > lo && space(s[hi - 1]) then SpaceStart(s, lo, hi - 1, space) else hi
  }

  /** `r` is what is left of `s` once `space` characters are removed from
      both ends: the slice of `s` starting at `lo`, everything cut off is
      space, and the slice neither starts nor ends with space. */
  predicate StrippedAt(r: string, s: string, lo: nat, space: char -> bool) {
    && lo + |r| <= |s|
    && r == s[lo..lo + |r|]
    && (forall k :: 0 <= k < lo ==> space(s[k]))
    && (forall k :: lo + |r| <= k < |s| ==> space(s[k]))
    && (|r| > 0 ==> !space(r[0]) && !space(r[|r| - 1]))
  }

  /** `s` with the `space` characters at both ends removed. */
  function Trim(s: string, space: char -> bool): (r: string)
    ensures StrippedAt(r, s, SpaceEnd(s, 0, space), space)
  {
    var lo := SpaceEnd(s, 0, space);
    var hi := SpaceStart(s, lo, |s|, space);
    s[lo..hi]
  }

  /** Python's `s.strip()`. */
  function Strip(s: string): string {
    Trim(s, IsSpace)
  }

  /** The text `int()` reads once its surrounding whitespace is skipped. */
  function IntStrip(s: string): string {
    Trim(s, IsIntSpace)
  }

  /** At most one string is `s` trimmed: `StrippedAt` determines the result
      of `Trim` without reference to how it is computed. */
  lemma StrippedAtUnique(s: string, r: string, lo: nat, space: char -> bool)
    requires StrippedAt(r, s, lo, space)
    ensures r == Trim(s, space)
  {
    var lo' := SpaceEnd(s, 0, space);
    if |r| > 0 {
      assert !space(s[lo]);
      assert lo' == lo;
      assert !space(s[lo + |r| - 1]);
    }
  }

  /** A string that neither starts nor ends with space is its own trim. */
  lemma TrimUnchanged(s: string, space: char -> bool)
    requires |s| > 0 ==> !space(s[0]) && !space(s[|s| - 1])
    ensures Trim(s, space) == s
  {
  }

  /** Trimming is idempotent. */
  lemma TrimIdempotent(s: string, space: char -> bool)
    ensures Trim(Trim(s, space), space) == Trim(s, space)
  {
    TrimUnchanged(Trim(s, space), space);
  }

  // ---------------------------------------------------------------- split

  /** Joins `parts` with `sep` between neighbours: Python's `sep.join(parts)`. */
  function Join(parts: seq<string>, sep: char): string
    requires |parts| > 0
  {
    if |parts| == 1 then parts[0] else parts[0] + [sep] + Join(parts[1..], sep)
  }

  /** Python's `s.split(sep)` for a one-character separator: never empty
      (the empty string gives one empty part) and no part contains the
      separator. */
  function Split(s: string, sep: char): (parts: seq<string>)
    ensures |parts| > 0
    ensures forall i :: 0 <= i < |parts| ==> sep !in parts[i]
  {
    if |s| == 0 then [""]
    else
      var rest := Split(s[1..], sep);
      if s[0] == sep then [""] + rest
      else [[s[0]] + rest[0]] + rest[1..]
  }

  /** There is one more part than there are separators. */
  lemma {:induction false} SplitCount(s: string, sep: char)
    ensures |Split(s, sep)| == multiset(s)[sep] + 1
    decreases |s|
  {
    if |s| > 0 {
      SplitCount(s[1..], sep);
      assert s == [s[0]] + s[1..];
    }
  }

  /** Joining the parts gives the text back. */
  lemma {:induction false} JoinSplit(s: string, sep: char)
    ensures Join(Split(s, sep), sep) == s
    decreases |s|
  {
    if |s| > 0 {
      var rest := Split(s[1..], sep);
      JoinSplit(s[1..], sep);
      assert s == [s[0]] + s[1..];
      if s[0] == sep {
        assert ([""] + rest)[1..] == rest;
      } else {
        var parts := [[s[0]] + rest[0]] + rest[1..];
        assert parts[1..] == rest[1..];
        if |rest| > 1 {
          assert Join(rest, sep) == rest[0] + [sep] + Join(rest[1..], sep);
        }
      }
    }
  }

  /** Splitting text that starts with a separator-free prefix `p` glues `p`
      onto the first part of what follows. */
  lemma {:induction false} SplitPrefix(p: string, t: string, sep: char)
    requires sep !in p
    ensures Split(p + t, sep) == [p + Split(t, sep)[0]] + Split(t, sep)[1..]
    decreases |p|
  {
    if |p| == 0 {
      var parts := Split(t, sep);
      assert p + t == t;
      assert p + parts[0] == parts[0];
      assert parts == [parts[0]] + parts[1..];
    } else {
      assert (p + t)[1..] == p[1..] + t;
      assert (p + t)[0] == p[0];
      SplitPrefix(p[1..], t, sep);
      assert [p[0]] + (p[1..] + Split(t, sep)[0]) == p + Split(t, sep)[0];
    }
  }

  /** Split undoes Join when no part contains the separator. */
  lemma {:induction false} SplitJoin(parts: seq<string>, sep: char)
    requires |parts| > 0
    requires forall i :: 0 <= i < |parts| ==> sep !in parts[i]
    ensures Split(Join(parts, sep), sep) == parts
    decreases |parts|
  {
    if |parts| == 1 {
      SplitPrefix(parts[0], "", sep);
      assert parts[0] + "" == parts[0];
    } else {
      var tail := Join(parts[1..], sep);
      SplitJoin(parts[1..], sep);
      assert Join(parts, sep) == parts[0] + ([sep] + tail);
      SplitPrefix(parts[0], [sep] + tail, sep);
      assert ([sep] + tail)[0] == sep;
      assert ([sep] + tail)[1..] == tail;
      var rest := Split([sep] + tail, sep);
      assert rest == [""] + parts[1..];
      assert rest[0] == "" && rest[1..] == parts[1..];
      assert parts[0] + "" == parts[0];
      assert parts == [parts[0]] + parts[1..];
    }
  }

  // ---------------------------------------------------------------- int

  predicate IsDigit(c: char) {
    '0' <= c <= '9'
  }

  /** The body of a base-10 integer as Python's `int()` accepts it: one or
      more digits, with single underscores allowed between two digits. */
  predicate IsDigitText(s: string) {
    && |s| > 0
    && IsDigit(s[0])
    && IsDigit(s[|s| - 1])
    && (forall i :: 0 <= i < |s| ==> IsDigit(s[i]) || s[i] == '_')
    && (forall i :: 0 <= i < |s| - 1 ==> s[i] == '_' ==> IsDigit(s[i + 1]))
  }

  /** The number the digits of `s` spell, underscores skipped. */
  function DigitsValue(s: string): nat
    requires forall i :: 0 <= i < |s| ==> IsDigit(s[i]) || s[i] == '_'
  {
    if |s| == 0 then 0
    else
      var last := s[|s| - 1];
      assert IsDigit(last) || last == '_';
      if last == '_' then DigitsValue(s[..|s| - 1])
      else 10 * DigitsValue(s[..|s| - 1]) + (last as int - '0' as int)
  }

  /** The text after one optional leading sign. */
  function Unsigned(t: string): string {
    if |t| > 0 && (t[0] == '+' || t[0] == '-') then t[1..] else t
  }

  /** `int()` on text without surrounding whitespace: an optional sign,
      then a digit text; anything else is a ValueError (`None`). */
  function ParseSigned(t: string): (r: Option<int>)
    ensures r.Some? <==> IsDigitText(Unsigned(t))
    ensures r.Some? ==> |t| > 0
    ensures r.Some? && t[0] != '-' ==> r.value >= 0
    ensures r.Some? && t[0] == '-' ==> r.value <= 0
  {
    var u := Unsigned(t);
    if IsDigitText(u) then
      var v: int := DigitsValue(u);
      Some(if t[0] == '-' then -v else v)
    else None
  }

  /** Python's `int(token)`: the whitespace `int()` skips is ignored, and
      what remains must be one optional sign followed by digits and single
      underscores between digits. */
  function ParseInt(token: string): (r: Option<int>)
    ensures r.Some? <==> IsDigitText(Unsigned(IntStrip(token)))
    ensures r.Some? ==> forall c :: c in Unsigned(IntStrip(token)) ==> IsDigit(c) || c == '_'
    ensures r.Some? && IntStrip(token)[0] != '-' ==> r.value >= 0
    ensures r.Some? && IntStrip(token)[0] == '-' ==> r.value <= 0
  {
    ParseSigned(IntStrip(token))
  }

  /** The canonical decimal text of a natural number. */
  function ShowNat(n: nat): (s: string)
    ensures IsDigitText(s)
    ensures DigitsValue(s) == n
  {
    var d := ['0' + ((n % 10) as char)];
    if n < 10 then d
    else
      var s := ShowNat(n / 10) + d;
      assert s[..|s| - 1] == ShowNat(n / 10);
      s
  }

  /** The canonical decimal text of an integer, as Python's `str(n)`. */
  function Show(n: int): string {
    if n < 0 then "-" + ShowNat(-n) else ShowNat(n)
  }

  /** `int(str(n)) == n`. */
  lemma ParseShow(n: int)
    ensures ParseInt(Show(n)) == Some(n)
  {
    var s := Show(n);
    TrimUnchanged(s, IsIntSpace);
    if n < 0 {
      assert s[1..] == ShowNat(-n);
    }
  }

  /** Python's `int()` ignores the whitespace it skips around the digits. */
  lemma ParseIntIgnoresSpace(token: string)
    ensures ParseInt(IntStrip(token)) == ParseInt(token)
  {
    TrimIdempotent(token, IsIntSpace);
  }

  // ------------------------------------------------------ canonical form

  predicate NotUnderscore(c: char) {
    c != '_'
  }

  predicate AllDigits(s: string) {
    forall i :: 0 <= i < |s| ==> IsDigit(s[i])
  }

  predicate AllZeros(s: string) {
    forall i :: 0 <= i < |s| ==> s[i] == '0'
  }

  /** The digits of a digit text, its underscores removed. */
  function Digits(s: string): (d: string)
    requires forall i :: 0 <= i < |s| ==> IsDigit(s[i]) || s[i] == '_'
    ensures AllDigits(d)
  {
    var d := Filter(s, NotUnderscore);
    assert forall i :: 0 <= i < |d| ==> d[i] in s;
    d
  }

  /** `d` without its leading zeros, a last digit always kept. */
  function DropZeros(d: string): string {
    if |d| > 1 && d[0] == '0' then DropZeros(d[1..]) else d
  }

  /** How Python writes back a number it accepted from text `t`: the sign
      and the underscores go, and so do the leading zeros; a minus sign
      stays only on a non-zero value. */
  function Canonical(t: string): string
    requires forall i :: 0 <= i < |Unsigned(t)| ==> IsDigit(Unsigned(t)[i]) || Unsigned(t)[i] == '_'
  {
    var digits := DropZeros(Digits(Unsigned(t)));
    if |t| > 0 && t[0] == '-' && digits != "0" then "-" + digits else digits
  }

  /** Removing underscores from a text with one more character at its end. */
  lemma DigitsSnoc(s: string, y: char)
    requires forall i :: 0 <= i < |s| ==> IsDigit(s[i]) || s[i] == '_'
    requires IsDigit(y) || y == '_'
    ensures Digits(s + [y]) == Digits(s) + (if y == '_' then [] else [y])
  {
    FilterSnoc(s, y, NotUnderscore);
  }

  /** Dropping the underscores does not change the value a text spells. */
  lemma {:induction false} DigitsKeepValue(s: string)
    requires forall i :: 0 <= i < |s| ==> IsDigit(s[i]) || s[i] == '_'
    ensures DigitsValue(Digits(s)) == DigitsValue(s)
    decreases |s|
  {
    if |s| > 0 {
      var init, y := s[..|s| - 1], s[|s| - 1];
      assert s == init + [y];
      DigitsSnoc(init, y);
      DigitsKeepValue(init);
      var d := Digits(s);
      if y != '_' {
        assert d == Digits(init) + [y];
        assert d[..|d| - 1] == Digits(init);
        assert DigitsValue(d) == 10 * DigitsValue(Digits(init)) + (y as int - '0' as int);
        assert DigitsValue(s) == 10 * DigitsValue(init) + (y as int - '0' as int);
      } else {
        assert d == Digits(init);
        assert DigitsValue(s) == DigitsValue(init);
      }
    }
  }

  /** A digit string spells zero exactly when all its digits are zeros. */
  lemma {:induction false} ZeroValue(d: string)
    requires AllDigits(d)
    ensures DigitsValue(d) == 0 <==> AllZeros(d)
    decreases |d|
  {
    if |d| > 0 {
      var p, c := d[..|d| - 1], d[|d| - 1];
      ZeroValue(p);
      assert AllZeros(d) <==> AllZeros(p) && c == '0';
    }
  }

  /** Leading zeros before a last digit all go. */
  lemma {:induction false} DropZerosOfZeros(p: string, c: char)
    requires AllZeros(p)
    ensures DropZeros(p + [c]) == [c]
    decreases |p|
  {
    if |p| > 0 {
      assert (p + [c])[1..] == p[1..] + [c];
      DropZerosOfZeros(p[1..], c);
    }
  }

  /** Once a non-zero digit is reached, dropping zeros leaves the rest. */
  lemma {:induction false} DropZerosSnoc(p: string, c: char)
    requires |p| > 0 && !AllZeros(p)
    ensures DropZeros(p + [c]) == DropZeros(p) + [c]
    decreases |p|
  {
    if p[0] == '0' {
      assert (p + [c])[1..] == p[1..] + [c];
      DropZerosSnoc(p[1..], c);
    }
  }

  /** A digit string without its leading zeros is the canonical text of the
      number it spells. */
  lemma {:induction false} DropZerosShows(d: string)
    requires |d| > 0 && AllDigits(d)
    ensures DropZeros(d) == ShowNat(DigitsValue(d))
    decreases |d|
  {
    var p, c := d[..|d| - 1], d[|d| - 1];
    assert d == p + [c];
    var v := DigitsValue(d);
    if |p| == 0 {
      assert v == c as int - '0' as int;
    } else {
      ZeroValue(p);
      if DigitsValue(p) == 0 {
        DropZerosOfZeros(p, c);
        assert v == c as int - '0' as int;
      } else {
        DropZerosShows(p);
        DropZerosSnoc(p, c);
        assert v / 10 == DigitsValue(p);
        assert v % 10 == c as int - '0' as int;
      }
    }
  }

  /** Only zero is written "0". */
  lemma ShowNatZero(n: nat)
    ensures ShowNat(n) == "0" <==> n == 0
  {
    if n >= 10 {
      assert |ShowNat(n)| == |ShowNat(n / 10)| + 1;
    }
  }

  /** What `int()` reads is what its canonical text says: with underscores,
      a plus sign and leading zeros removed, and no sign on zero, the text
      `int()` accepts is `str()` of the value it returns. */
  lemma ParseCanonical(token: string)
    requires ParseInt(token).Some?
    ensures Canonical(IntStrip(token)) == Show(ParseInt(token).value)
  {
    var t := IntStrip(token);
    var u := Unsigned(t);
    var v := DigitsValue(u);
    DigitsKeepValue(u);
    assert u[0] in Digits(u);
    DropZerosShows(Digits(u));
    ShowNatZero(v);
  }
}
