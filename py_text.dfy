/** Models of the Python `str` built-ins that the scanner's parsers are built
    from: `pat in s`, `s.split(c)`, `s.split()`, `s.strip()`, `s.splitlines()`,
    `sep.join(parts)` and `str(n)` for a natural number.  Each is stated on
    `seq<char>` the way CPython behaves on a `str`. */
module PyText {

  // ---------------------------------------------------------------------
  // Character classes
  // ---------------------------------------------------------------------

  /** `c.isspace()`: the characters that `split()` and `strip()` treat as
      whitespace (bidirectional class WS, B or S, or general category Zs). */
  predicate IsSpace(c: char) {
    var n := c as int;
    (0x09 <= n <= 0x0D) || (0x1C <= n <= 0x20) || n == 0x85 || n == 0xA0
    || n == 0x1680 || (0x2000 <= n <= 0x200A) || n == 0x2028 || n == 0x2029
    || n == 0x202F || n == 0x205F || n == 0x3000
  }

  /** The characters at which `splitlines()` ends a line:
      \n \v \f \r, the separators \x1c \x1d \x1e, NEL, LS and PS. */
  predicate IsLineBreak(c: char) {
    var n := c as int;
    (0x0A <= n <= 0x0D) || (0x1C <= n <= 0x1E) || n == 0x85 || n == 0x2028 || n == 0x2029
  }

  predicate NoSpace(s: string) {
    forall k :: 0 <= k < |s| ==> !IsSpace(s[k])
  }

  lemma NoSpaceHasNoBlank(s: string)
    requires NoSpace(s)
    ensures ' ' !in s
  {
    assert IsSpace(' ');
  }

  predicate AllSpace(s: string) {
    forall k :: 0 <= k < |s| ==> IsSpace(s[k])
  }

  predicate NoLineBreak(s: string) {
    forall k :: 0 <= k < |s| ==> !IsLineBreak(s[k])
  }

  predicate EndsWith(s: string, t: string) {
    |t| <= |s| && s[|s| - |t|..] == t
  }

  // ---------------------------------------------------------------------
  // `pat in s`
  // ---------------------------------------------------------------------

  predicate OccursAt(s: string, pat: string, i: nat) {
    i + |pat| <= |s| && s[i..i + |pat|] == pat
  }

  /** `pat in s`: substring containment. */
  function Contains(s: string, pat: string): (b: bool)
    ensures b <==> exists i: nat :: OccursAt(s, pat, i)
    decreases |s|
  {
    if |s| < |pat| then
      false
    else if s[..|pat|] == pat then
      assert OccursAt(s, pat, 0);
      true
    else
      var b := Contains(s[1..], pat);
      assert b ==> exists i: nat :: OccursAt(s, pat, i) by {
        if b {
          var i: nat :| OccursAt(s[1..], pat, i);
          assert s[i + 1..i + 1 + |pat|] == s[1..][i..i + |pat|];
          assert OccursAt(s, pat, i + 1);
        }
      }
      assert (exists i: nat :: OccursAt(s, pat, i)) ==> b by {
        if exists i: nat :: OccursAt(s, pat, i) {
          var i: nat :| OccursAt(s, pat, i);
          assert i != 0;
          assert s[1..][i - 1..i - 1 + |pat|] == s[i..i + |pat|];
          assert OccursAt(s[1..], pat, i - 1);
        }
      }
      b
  }

  // ---------------------------------------------------------------------
  // `sep.join(parts)` and `s.split(c)`
  // ---------------------------------------------------------------------

  /** `sep.join(parts)`. */
  function JoinWith(parts: seq<string>, sep: string): string
    decreases |parts|
  {
    if |parts| == 0 then []
    else if |parts| == 1 then parts[0]
    else parts[0] + sep + JoinWith(parts[1..], sep)
  }

  lemma {:induction false} JoinWithSnoc(parts: seq<string>, x: string, sep: string)
    requires parts != []
    ensures JoinWith(parts + [x], sep) == JoinWith(parts, sep) + sep + x
    decreases |parts|
  {
    if |parts| == 1 {
      assert (parts + [x])[1..] == [x];
    } else {
      assert (parts + [x])[1..] == parts[1..] + [x];
      JoinWithSnoc(parts[1..], x, sep);
    }
  }

  /** `s.split(c)` for a one-character separator: the fields between the
      occurrences of `c`, empty fields kept.  Never empty. */
  function SplitOn(s: string, c: char): (parts: seq<string>)
    ensures |parts| >= 1
    ensures forall k :: 0 <= k < |parts| ==> c !in parts[k]
    decreases |s|
  {
    if s == [] then [[]]
    else
      var rest := SplitOn(s[1..], c);
      if s[0] == c then [[]] + rest
      else [[s[0]] + rest[0]] + rest[1..]
  }

  /** Prepending a character to the first field prepends it to the join. */
  lemma JoinWithConsFirst(x: char, parts: seq<string>, sep: string)
    requires parts != []
    ensures JoinWith([[x] + parts[0]] + parts[1..], sep) == [x] + JoinWith(parts, sep)
  {
    var moved := [[x] + parts[0]] + parts[1..];
    assert moved[1..] == parts[1..];
  }

  /** Joining the fields back with the separator gives the original text. */
  lemma {:induction false} SplitOnJoin(s: string, c: char)
    ensures JoinWith(SplitOn(s, c), [c]) == s
    decreases |s|
  {
    if s != [] {
      var rest := SplitOn(s[1..], c);
      SplitOnJoin(s[1..], c);
      if s[0] == c {
        var parts := [[]] + rest;
        assert SplitOn(s, c) == parts;
        assert parts[1..] == rest;
        assert JoinWith(parts, [c]) == [] + [c] + JoinWith(rest, [c]);
      } else {
        assert SplitOn(s, c) == [[s[0]] + rest[0]] + rest[1..];
        JoinWithConsFirst(s[0], rest, [c]);
      }
      assert s == [s[0]] + s[1..];
    }
  }

  /** `s.split(c)[0]` is the text before the first `c`, or all of `s`. */
  lemma SplitOnFirst(s: string, c: char)
    ensures var first := SplitOn(s, c)[0];
            first <= s && (|first| < |s| ==> s[|first|] == c)
  {
    var parts := SplitOn(s, c);
    SplitOnJoin(s, c);
    if |parts| > 1 {
      assert JoinWith(parts, [c]) == parts[0] + [c] + JoinWith(parts[1..], [c]);
    }
  }

  /** `s.split(c)[-1]` is the text after the last `c`, or all of `s`. */
  lemma SplitOnLast(s: string, c: char)
    ensures var parts := SplitOn(s, c);
            var last := parts[|parts| - 1];
            EndsWith(s, last) && (|last| < |s| ==> s[|s| - |last| - 1] == c)
  {
    var parts := SplitOn(s, c);
    SplitOnJoin(s, c);
    if |parts| > 1 {
      JoinWithLast(parts, [c]);
    }
  }

  /** With two or more parts, the join ends in the separator and the last part. */
  lemma JoinWithLast(parts: seq<string>, sep: string)
    requires |parts| > 1
    ensures var s, last := JoinWith(parts, sep), parts[|parts| - 1];
            EndsWith(s, sep + last)
  {
    var n := |parts|;
    var init, last := parts[..n - 1], parts[n - 1];
    assert parts == init + [last];
    JoinWithSnoc(init, last, sep);
    var head := JoinWith(init, sep);
    assert JoinWith(parts, sep) == head + (sep + last);
    EndsWithAppend(head, sep + last);
  }

  lemma EndsWithAppend(head: string, tail: string)
    ensures EndsWith(head + tail, tail)
  {
    assert (head + tail)[|head|..] == tail;
  }

  lemma EndsWithTrans(s: string, t: string, u: string)
    requires EndsWith(s, t) && EndsWith(t, u)
    ensures EndsWith(s, u)
  {
    assert s[|s| - |u|..] == s[|s| - |t|..][|t| - |u|..];
  }

  /** A non-empty join ends with its last part. */
  lemma JoinWithEndsLast(parts: seq<string>, sep: string)
    requires parts != []
    ensures EndsWith(JoinWith(parts, sep), parts[|parts| - 1])
  {
    var last := parts[|parts| - 1];
    if |parts| == 1 {
      assert JoinWith(parts, sep)[|last| - |last|..] == last;
    } else {
      JoinWithLast(parts, sep);
      EndsWithAppend(sep, last);
      EndsWithTrans(JoinWith(parts, sep), sep + last, last);
    }
  }

  /** A field free of the separator splits to itself. */
  lemma {:induction false} SplitOnNone(s: string, c: char)
    requires c !in s
    ensures SplitOn(s, c) == [s]
    decreases |s|
  {
    if s != [] {
      SplitOnNone(s[1..], c);
      assert [s[0]] + s[1..] == s;
    }
  }

  /** Splitting at one separator of a concatenation splits the two sides
      independently: `(a + c + b).split(c) == a.split(c) + b.split(c)`. */
  lemma {:induction false} SplitOnAppend(a: string, c: char, b: string)
    ensures SplitOn(a + [c] + b, c) == SplitOn(a, c) + SplitOn(b, c)
    decreases |a|
  {
    var s := a + [c] + b;
    if a == [] {
      assert s[1..] == b;
    } else {
      assert s[1..] == a[1..] + [c] + b;
      SplitOnAppend(a[1..], c, b);
    }
  }

  // ---------------------------------------------------------------------
  // `s.split()` (no argument)
  // ---------------------------------------------------------------------

  /** Length of the run of non-whitespace characters at the start of `s`. */
  function WordLength(s: string): (n: nat)
    ensures n <= |s| && NoSpace(s[..n])
    ensures n < |s| ==> IsSpace(s[n])
    decreases |s|
  {
    if s == [] || IsSpace(s[0]) then 0
    else
      var n := WordLength(s[1..]);
      assert s[..n + 1] == [s[0]] + s[1..][..n];
      1 + n
  }

  /** `s.split()`: the maximal runs of non-whitespace characters, in order;
      whitespace runs of any length separate them and no field is empty. */
  function Words(s: string): seq<string>
    decreases |s|
  {
    if s == [] then []
    else if IsSpace(s[0]) then Words(s[1..])
    else [s[..WordLength(s)]] + Words(s[WordLength(s)..])
  }

  /** Every field of `s.split()` is non-empty and free of whitespace. */
  lemma {:induction false} WordsAreWords(s: string)
    ensures forall k :: 0 <= k < |Words(s)| ==> Words(s)[k] != [] && NoSpace(Words(s)[k])
    decreases |s|
  {
    if s != [] {
      if IsSpace(s[0]) {
        WordsAreWords(s[1..]);
      } else {
        var n := WordLength(s);
        WordsAreWords(s[n..]);
        assert forall k :: 1 <= k < |Words(s)| ==> Words(s)[k] == Words(s[n..])[k - 1];
      }
    }
  }

  /** The non-whitespace characters of `s`, in order. */
  function Visible(s: string): string
    decreases |s|
  {
    if s == [] then [] else (if IsSpace(s[0]) then [] else [s[0]]) + Visible(s[1..])
  }

  function Concat(ws: seq<string>): string
    decreases |ws|
  {
    if ws == [] then [] else ws[0] + Concat(ws[1..])
  }

  lemma {:induction false} VisibleAppend(a: string, b: string)
    ensures Visible(a + b) == Visible(a) + Visible(b)
    decreases |a|
  {
    if a != [] {
      assert (a + b)[1..] == a[1..] + b;
      VisibleAppend(a[1..], b);
    } else {
      assert a + b == b;
    }
  }

  lemma {:induction false} VisibleOfWord(w: string)
    requires NoSpace(w)
    ensures Visible(w) == w
    decreases |w|
  {
    if w != [] {
      VisibleOfWord(w[1..]);
    }
  }

  /** `split()` drops whitespace and nothing else: the fields, concatenated,
      are exactly the non-whitespace characters of the input. */
  lemma {:induction false} WordsKeepVisible(s: string)
    ensures Concat(Words(s)) == Visible(s)
    decreases |s|
  {
    if s != [] {
      if IsSpace(s[0]) {
        WordsKeepVisible(s[1..]);
      } else {
        var n := WordLength(s);
        WordsKeepVisible(s[n..]);
        assert s == s[..n] + s[n..];
        VisibleAppend(s[..n], s[n..]);
        VisibleOfWord(s[..n]);
      }
    }
  }

  /** A text with a non-whitespace character has at least one field. */
  lemma {:induction false} WordsNonEmpty(s: string, i: nat)
    requires i < |s| && !IsSpace(s[i])
    ensures Words(s) != []
    decreases |s|
  {
    if IsSpace(s[0]) {
      WordsNonEmpty(s[1..], i - 1);
    }
  }

  /** A field followed by whitespace or the end of the text is split off
      whole. */
  lemma WordsCons(w: string, rest: string)
    requires w != [] && NoSpace(w)
    requires rest == [] || IsSpace(rest[0])
    ensures Words(w + rest) == [w] + Words(rest)
  {
    var s := w + rest;
    var n := WordLength(s);
    assert s[..|w|] == w;
    assert n == |w|;
    assert s[n..] == rest;
  }

  /** A field followed by whitespace is split off whole. */
  lemma WordsAfterWord(w: string, gap: string, rest: string)
    requires w != [] && NoSpace(w) && gap != [] && AllSpace(gap)
    ensures Words(w + gap + rest) == [w] + Words(rest)
  {
    assert w + gap + rest == w + (gap + rest);
    WordsCons(w, gap + rest);
    WordsSkipSpace(gap, rest);
  }

  /** Three whitespace-separated fields followed by whitespace or the end. */
  lemma WordsOfRow(a: string, gap1: string, b: string, gap2: string, c: string, rest: string)
    requires a != [] && NoSpace(a) && b != [] && NoSpace(b) && c != [] && NoSpace(c)
    requires gap1 != [] && AllSpace(gap1) && gap2 != [] && AllSpace(gap2)
    requires rest == [] || IsSpace(rest[0])
    ensures Words(a + gap1 + (b + gap2 + (c + rest))) == [a] + ([b] + ([c] + Words(rest)))
  {
    WordsCons(c, rest);
    WordsAfterWord(b, gap2, c + rest);
    WordsAfterWord(a, gap1, b + gap2 + (c + rest));
  }

  /** Leading whitespace does not change the fields. */
  lemma {:induction false} WordsSkipSpace(gap: string, rest: string)
    requires AllSpace(gap)
    ensures Words(gap + rest) == Words(rest)
    decreases |gap|
  {
    if gap == [] {
      assert gap + rest == rest;
    } else {
      assert (gap + rest)[1..] == gap[1..] + rest;
      WordsSkipSpace(gap[1..], rest);
    }
  }

  // ---------------------------------------------------------------------
  // `s.strip()`
  // ---------------------------------------------------------------------

  function TrimStart(s: string): (r: string)
    ensures EndsWith(s, r) && AllSpace(s[..|s| - |r|])
    ensures r == [] || !IsSpace(r[0])
    decreases |s|
  {
    if s != [] && IsSpace(s[0]) then
      var r := TrimStart(s[1..]);
      assert s[..|s| - |r|] == [s[0]] + s[1..][..|s[1..]| - |r|];
      r
    else s
  }

  function TrimEnd(s: string): (r: string)
    ensures r <= s && AllSpace(s[|r|..])
    ensures r == [] || !IsSpace(r[|r| - 1])
    decreases |s|
  {
    if s != [] && IsSpace(s[|s| - 1]) then
      var r := TrimEnd(s[..|s| - 1]);
      assert s[|r|..] == s[..|s| - 1][|r|..] + [s[|s| - 1]];
      r
    else s
  }

  /** `r` is `s` with a whitespace prefix of length `i` and a whitespace
      suffix removed. */
  predicate TrimmedAt(s: string, r: string, i: nat) {
    i + |r| <= |s| && s[i..i + |r|] == r && AllSpace(s[..i]) && AllSpace(s[i + |r|..])
  }

  /** `s.strip()`: drop leading and trailing whitespace; what is left is a
      slice of `s` that neither starts nor ends with whitespace. */
  function Strip(s: string): (r: string)
    ensures r == [] || (!IsSpace(r[0]) && !IsSpace(r[|r| - 1]))
    ensures TrimmedAt(s, r, |s| - |TrimStart(s)|)
  {
    var t := TrimStart(s);
    TrimmedOfParts(s, t, TrimEnd(t));
    TrimEnd(t)
  }

  lemma TrimmedOfParts(s: string, t: string, r: string)
    requires EndsWith(s, t) && AllSpace(s[..|s| - |t|])
    requires r <= t && AllSpace(t[|r|..])
    ensures TrimmedAt(s, r, |s| - |t|)
    ensures r != [] ==> r[0] == t[0]
  {
    var i := |s| - |t|;
    assert s[i..] == t;
    assert s[i..i + |r|] == t[..|r|];
    assert s[i + |r|..] == t[|r|..];
  }

  /** Stripping twice is stripping once. */
  lemma StripIdempotent(s: string)
    ensures Strip(Strip(s)) == Strip(s)
  {
    var r := Strip(s);
    assert TrimStart(r) == r;
    assert TrimEnd(r) == r;
  }

  /** Stripping keeps a slice, so it adds no character. */
  lemma StripKeepsOut(s: string, c: char)
    requires c !in s
    ensures c !in Strip(s)
  {
    var r := Strip(s);
    var i := |s| - |TrimStart(s)|;
    forall k | 0 <= k < |r|
      ensures r[k] != c
    {
      assert r[k] == s[i + k];
    }
  }

  // ---------------------------------------------------------------------
  // `s.splitlines()`
  // ---------------------------------------------------------------------

  /** Index of the first line break in `s`, or `|s|`. */
  function LineLength(s: string): (n: nat)
    ensures n <= |s| && NoLineBreak(s[..n])
    ensures n < |s| ==> IsLineBreak(s[n])
    decreases |s|
  {
    if s == [] || IsLineBreak(s[0]) then 0
    else
      var n := LineLength(s[1..]);
      assert s[..n + 1] == [s[0]] + s[1..][..n];
      1 + n
  }

  /** Width of the line break that starts `s`: "\r\n" is one break. */
  function BreakWidth(s: string): (w: nat)
    requires s != [] && IsLineBreak(s[0])
    ensures 1 <= w <= |s|
  {
    if s[0] == '\r' && |s| > 1 && s[1] == '\n' then 2 else 1
  }

  /** `s.splitlines()`: the lines of `s` without their breaks; a final line
      break does not start an extra empty line, and "" has no lines. */
  function SplitLines(s: string): (lines: seq<string>)
    ensures forall k :: 0 <= k < |lines| ==> NoLineBreak(lines[k])
    decreases |s|
  {
    if s == [] then []
    else
      var n := LineLength(s);
      if n == |s| then [s]
      else [s[..n]] + SplitLines(s[n + BreakWidth(s[n..])..])
  }

  /** A non-empty text without a break is one line: an unterminated last
      line is kept. */
  lemma SplitLinesOneLine(line: string)
    requires line != [] && NoLineBreak(line)
    ensures SplitLines(line) == [line]
  {
    var n := LineLength(line);
    assert n == |line|;
  }

  /** A line ended by a single-character break is split off; this covers
      every break except "\r" followed by "\n". */
  lemma SplitLinesBreak(line: string, b: char, rest: string)
    requires NoLineBreak(line) && IsLineBreak(b)
    requires !(b == '\r' && rest != [] && rest[0] == '\n')
    ensures SplitLines(line + ([b] + rest)) == [line] + SplitLines(rest)
  {
    var s := line + ([b] + rest);
    LineLengthOf(line, [b] + rest);
    assert s[|line|..] == [b] + rest;
    assert BreakWidth(s[|line|..]) == 1;
    assert s[..|line|] == line;
    assert s[|line| + 1..] == rest;
  }

  /** "\r\n" is one break: it ends one line and starts no empty one. */
  lemma SplitLinesCrLf(line: string, rest: string)
    requires NoLineBreak(line)
    ensures SplitLines(line + ("\r\n" + rest)) == [line] + SplitLines(rest)
  {
    var s := line + ("\r\n" + rest);
    LineLengthOf(line, "\r\n" + rest);
    assert s[|line|..] == "\r\n" + rest;
    assert BreakWidth(s[|line|..]) == 2;
    assert s[..|line|] == line;
    assert s[|line| + 2..] == rest;
  }

  /** The text that prints each line followed by "\n". */
  function Terminated(lines: seq<string>): string
    decreases |lines|
  {
    if lines == [] then [] else lines[0] + "\n" + Terminated(lines[1..])
  }

  lemma LineLengthOf(line: string, rest: string)
    requires NoLineBreak(line) && rest != [] && IsLineBreak(rest[0])
    ensures LineLength(line + rest) == |line|
  {
    var s := line + rest;
    var n := LineLength(s);
    assert s[..|line|] == line;
  }

  /** Lines printed one per "\n"-terminated row are read back unchanged. */
  lemma {:induction false} SplitLinesRoundTrip(lines: seq<string>)
    requires forall k :: 0 <= k < |lines| ==> NoLineBreak(lines[k])
    ensures SplitLines(Terminated(lines)) == lines
    decreases |lines|
  {
    if lines != [] {
      var s := Terminated(lines);
      var rest := Terminated(lines[1..]);
      assert s == lines[0] + ("\n" + rest);
      LineLengthOf(lines[0], "\n" + rest);
      var n := |lines[0]|;
      assert s[..n] == lines[0];
      assert s[n..] == "\n" + rest;
      assert BreakWidth(s[n..]) == 1;
      assert s[n + 1..] == rest;
      SplitLinesRoundTrip(lines[1..]);
    }
  }

  // ---------------------------------------------------------------------
  // `str(n)` for a natural number
  // ---------------------------------------------------------------------

  predicate IsDigit(c: char) {
    '0' <= c <= '9'
  }

  predicate AllDigits(s: string) {
    forall k :: 0 <= k < |s| ==> IsDigit(s[k])
  }

  function DigitChar(d: nat): (c: char)
    requires d < 10
    ensures IsDigit(c) && c as int - '0' as int == d
  {
    ('0' as int + d) as char
  }

  /** `str(n)`: the decimal digits of `n`, without leading zeros. */
  function NatToString(n: nat): (s: string)
    ensures s != [] && AllDigits(s)
    ensures s[0] == '0' ==> n == 0
    decreases n
  {
    if n < 10 then [DigitChar(n)] else NatToString(n / 10) + [DigitChar(n % 10)]
  }

  /** The number a string of decimal digits denotes (`int(s)`). */
  function DecimalValue(s: string): nat
    requires AllDigits(s)
    decreases |s|
  {
    if s == [] then 0
    else 10 * DecimalValue(s[..|s| - 1]) + (s[|s| - 1] as int - '0' as int)
  }

  /** Reading back the digits that `str(n)` prints gives `n`. */
  lemma {:induction false} NatToStringRoundTrip(n: nat)
    ensures DecimalValue(NatToString(n)) == n
    decreases n
  {
    var s := NatToString(n);
    if n >= 10 {
      NatToStringRoundTrip(n / 10);
      assert s[..|s| - 1] == NatToString(n / 10);
    }
  }

  /** Distinct numbers print differently. */
  lemma NatToStringInjective(a: nat, b: nat)
    requires NatToString(a) == NatToString(b)
    ensures a == b
  {
    NatToStringRoundTrip(a);
    NatToStringRoundTrip(b);
  }
}
