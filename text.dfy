/** String operations of the JavaScript and Java runtimes that the app relies on:
    `trim`, `split`/`join`, `startsWith`/`endsWith`, `includes`, `padStart`,
    `Number.prototype.toString` on non-negative integers, and ASCII case folding.
    Strings are sequences of Unicode scalar values. */
module Text {

  // ---------------------------------------------------------------------------
  // Whitespace and trimming
  // ---------------------------------------------------------------------------

  /** The characters `String.prototype.trim` removes in JavaScript:
      WhiteSpace (TAB, VT, FF, SP, NBSP, ZWNBSP and category Zs) and LineTerminator. */
  predicate IsJsWhitespace(c: char)
  {
    c == '\t' || c == '\n' || c == '\U{000B}' || c == '\U{000C}' || c == '\r' || c == ' '
    || c == '\U{00A0}' || c == '\U{1680}' || ('\U{2000}' <= c <= '\U{200A}')
    || c == '\U{2028}' || c == '\U{2029}' || c == '\U{202F}' || c == '\U{205F}'
    || c == '\U{3000}' || c == '\U{FEFF}'
  }

  /** The characters `java.lang.String.trim` removes: every code point up to U+0020. */
  predicate IsJavaTrimmable(c: char)
  {
    c as int <= 0x20
  }

  /** Every character of `s` is one that `ws` classifies as blank. */
  predicate AllBlank(s: string, ws: char -> bool)
  {
    forall k :: 0 <= k < |s| ==> ws(s[k])
  }

  /** The number of blanks at the start of `s`. */
  function LeadingBlanks(s: string, ws: char -> bool): (n: nat)
    ensures n <= |s|
    ensures forall k :: 0 <= k < n ==> ws(s[k])
    ensures n < |s| ==> !ws(s[n])
    decreases |s|
  {
    if s == [] || !ws(s[0]) then 0 else 1 + LeadingBlanks(s[1..], ws)
  }

  /** The index where the blanks at the end of `s` begin. */
  function TrailingStart(s: string, ws: char -> bool): (m: nat)
    ensures m <= |s|
    ensures forall k :: m <= k < |s| ==> ws(s[k])
    ensures m > 0 ==> !ws(s[m - 1])
    decreases |s|
  {
    if s == [] || !ws(s[|s| - 1]) then |s| else TrailingStart(s[..|s| - 1], ws)
  }

  /** Removes blanks at both ends. The result is empty exactly when `s` is all blanks,
      and otherwise starts and ends with a non-blank character of `s`. */
  function Trim(s: string, ws: char -> bool): (r: string)
    ensures r == [] <==> AllBlank(s, ws)
    ensures r != [] ==> !ws(r[0]) && !ws(r[|r| - 1])
    ensures |r| <= |s|
    ensures exists i, j :: 0 <= i <= j <= |s| && IsTrimmedSlice(s, ws, i, j, r)
  {
    var n := LeadingBlanks(s, ws);
    var m := TrailingStart(s[n..], ws);
    assert m > 0 ==> s[n..][0] == s[n];
    var r := s[n..n + m];
    assert AllBlank(s[..n], ws);
    assert AllBlank(s[n + m..], ws) by {
      var tail := s[n + m..];
      forall k | 0 <= k < |tail| ensures ws(tail[k]) {
        assert tail[k] == s[n..][m + k];
      }
    }
    assert IsTrimmedSlice(s, ws, n, n + m, r);
    r
  }

  /** `r` is `s[i..j]`, and only blanks of `s` lie outside it. */
  predicate IsTrimmedSlice(s: string, ws: char -> bool, i: int, j: int, r: string)
    requires 0 <= i <= j <= |s|
  {
    r == s[i..j] && AllBlank(s[..i], ws) && AllBlank(s[j..], ws)
  }

  /** JavaScript `s.trim()`. */
  function JsTrim(s: string): string
  {
    Trim(s, IsJsWhitespace)
  }

  /** JavaScript `!s.trim()`: the string is empty after trimming. */
  predicate IsJsBlank(s: string)
  {
    JsTrim(s) == []
  }

  /** A JavaScript-blank string is one made only of JavaScript whitespace. */
  lemma JsBlankIffAllWhitespace(s: string)
    ensures IsJsBlank(s) <==> AllBlank(s, IsJsWhitespace)
  {
  }

  // ---------------------------------------------------------------------------
  // Prefixes and suffixes
  // ---------------------------------------------------------------------------

  predicate StartsWith<T(==)>(s: seq<T>, p: seq<T>)
  {
    |p| <= |s| && s[..|p|] == p
  }

  predicate EndsWith<T(==)>(s: seq<T>, p: seq<T>)
  {
    |p| <= |s| && s[|s| - |p|..] == p
  }

  // ---------------------------------------------------------------------------
  // split and join
  // ---------------------------------------------------------------------------

  /** JavaScript `s.split(sep)` for a non-empty separator: the pieces between the
      left-most non-overlapping occurrences of `sep`. */
  function Split<T(==)>(s: seq<T>, sep: seq<T>): (parts: seq<seq<T>>)
    requires |sep| > 0
    ensures |parts| >= 1
    decreases |s|
  {
    if |s| < |sep| then [s]
    else if s[..|sep|] == sep then [[]] + Split(s[|sep|..], sep)
    else
      var rest := Split(s[1..], sep);
      [[s[0]] + rest[0]] + rest[1..]
  }

  /** JavaScript `parts.join(sep)` for a non-empty array. */
  function Join<T>(parts: seq<seq<T>>, sep: seq<T>): seq<T>
    requires |parts| >= 1
    decreases |parts|
  {
    if |parts| == 1 then parts[0] else parts[0] + sep + Join(parts[1..], sep)
  }

  /** JavaScript `s.includes(t)`: `t` occurs in `s` at some position. */
  predicate Contains<T(==)>(s: seq<T>, t: seq<T>)
    decreases |s|
  {
    StartsWith(s, t) || (s != [] && Contains(s[1..], t))
  }

  lemma {:induction false} ContainsIsLonger<T>(s: seq<T>, t: seq<T>)
    requires Contains(s, t)
    ensures |t| <= |s|
    decreases |s|
  {
    if !StartsWith(s, t) {
      ContainsIsLonger(s[1..], t);
    }
  }

  /** A string that contains `t` contains its first element. */
  lemma {:induction false} ContainsFirst<T>(s: seq<T>, t: seq<T>)
    requires t != [] && Contains(s, t)
    ensures t[0] in s
    decreases |s|
  {
    if StartsWith(s, t) {
      assert s[0] == t[0];
    } else {
      ContainsFirst(s[1..], t);
    }
  }

  /** A split yields more than one piece exactly when the separator occurs. */
  lemma {:induction false} SplitSeveralIffContains<T>(s: seq<T>, sep: seq<T>)
    requires |sep| > 0
    ensures |Split(s, sep)| > 1 <==> Contains(s, sep)
    decreases |s|
  {
    if |s| < |sep| {
      if Contains(s, sep) {
        ContainsIsLonger(s, sep);
      }
    } else if s[..|sep|] == sep {
      assert StartsWith(s, sep);
    } else {
      SplitSeveralIffContains(s[1..], sep);
    }
  }

  /** The last element of a non-empty array (`parts[parts.length - 1]`, `parts.pop()`). */
  function Last<T>(parts: seq<T>): T
    requires |parts| >= 1
  {
    parts[|parts| - 1]
  }

  /** Joining the pieces of a split with the same separator gives back the string. */
  lemma {:induction false} JoinSplit<T>(s: seq<T>, sep: seq<T>)
    requires |sep| > 0
    ensures Join(Split(s, sep), sep) == s
    decreases |s|
  {
    if |s| < |sep| {
    } else if s[..|sep|] == sep {
      JoinSplit(s[|sep|..], sep);
      JoinEmptyFirst(Split(s[|sep|..], sep), sep);
      assert s == sep + s[|sep|..];
    } else {
      JoinSplit(s[1..], sep);
      JoinExtendFirst(s[0], Split(s[1..], sep), sep);
      assert s == [s[0]] + s[1..];
    }
  }

  /** An empty first piece contributes only its separator. */
  lemma JoinEmptyFirst<T>(parts: seq<seq<T>>, sep: seq<T>)
    requires |parts| >= 1
    ensures Join([[]] + parts, sep) == sep + Join(parts, sep)
  {
    assert ([[]] + parts)[1..] == parts;
  }

  /** Extending the first piece by one element extends the join by it. */
  lemma JoinExtendFirst<T>(x: T, parts: seq<seq<T>>, sep: seq<T>)
    requires |parts| >= 1
    ensures Join([[x] + parts[0]] + parts[1..], sep) == [x] + Join(parts, sep)
  {
    var q := [[x] + parts[0]] + parts[1..];
    if |parts| > 1 {
      assert q[1..] == parts[1..];
    }
  }

  /** The first piece of a join is a prefix of it and the last piece a suffix. */
  lemma {:induction false} JoinEnds<T>(parts: seq<seq<T>>, sep: seq<T>)
    requires |parts| >= 1
    ensures StartsWith(Join(parts, sep), parts[0])
    ensures EndsWith(Join(parts, sep), Last(parts))
    decreases |parts|
  {
    if |parts| > 1 {
      JoinEnds(parts[1..], sep);
      assert Last(parts[1..]) == Last(parts);
      var j := Join(parts, sep);
      assert j == parts[0] + sep + Join(parts[1..], sep);
      assert j[..|parts[0]|] == parts[0];
    }
  }

  /** Splitting on a single character leaves no piece containing that character. */
  lemma {:induction false} SplitPiecesAvoid<T>(s: seq<T>, c: T)
    ensures forall i :: 0 <= i < |Split(s, [c])| ==> c !in Split(s, [c])[i]
    decreases |s|
  {
    if |s| < 1 {
    } else if s[..1] == [c] {
      SplitPiecesAvoid(s[1..], c);
    } else {
      SplitPiecesAvoid(s[1..], c);
      var rest := Split(s[1..], [c]);
      assert s[0] != c by { assert s[..1][0] == s[0]; }
      var parts := [[s[0]] + rest[0]] + rest[1..];
      assert forall i :: 1 <= i < |parts| ==> parts[i] == rest[i];
    }
  }

  /** What splitting on one character yields: the string is the first piece, or the
      first piece, then `c`, then the join of the rest; no piece contains `c`. */
  lemma SplitOnChar<T>(s: seq<T>, c: T)
    ensures var parts := Split(s, [c]);
      && (forall i :: 0 <= i < |parts| ==> c !in parts[i])
      && StartsWith(s, parts[0]) && EndsWith(s, Last(parts))
      && (|parts| == 1 <==> c !in s)
      && (|parts| == 1 ==> s == parts[0])
      && (|parts| > 1 ==> s == parts[0] + [c] + Join(parts[1..], [c]))
  {
    var parts := Split(s, [c]);
    JoinSplit(s, [c]);
    JoinEnds(parts, [c]);
    SplitPiecesAvoid(s, c);
    if |parts| > 1 {
      assert s[|parts[0]|] == c;
    }
  }

  /** `s.split(c)[0]`, the part of `s` before the first `c`: a prefix of `s`
      without `c`; when `c` occurs, `s` is that part, then `c`, then the rest. */
  function Before<T(==)>(s: seq<T>, c: T): (r: seq<T>)
    ensures c !in r
    ensures StartsWith(s, r)
    ensures c in s ==> |r| < |s| && s[|r|] == c
    ensures c !in s ==> r == s
  {
    SplitOnChar(s, c);
    Split(s, [c])[0]
  }

  /** `s.split(c).pop()`, the part of `s` after the last `c`: a suffix of `s`
      without `c`, equal to `s` when `c` does not occur. */
  function AfterLast<T(==)>(s: seq<T>, c: T): (r: seq<T>)
    ensures c !in r
    ensures EndsWith(s, r)
    ensures c !in s ==> r == s
    ensures c in s ==> |r| < |s| && s[|s| - |r| - 1] == c
  {
    SplitOnChar(s, c);
    if c in s then
      LastPieceFollowsSeparator(s, c);
      Last(Split(s, [c]))
    else
      Last(Split(s, [c]))
  }

  /** When `c` occurs, the last piece of the split is preceded by a `c`. */
  lemma LastPieceFollowsSeparator<T>(s: seq<T>, c: T)
    requires c in s
    ensures var r := Last(Split(s, [c])); |r| < |s| && s[|s| - |r| - 1] == c
  {
    var parts := Split(s, [c]);
    SplitOnChar(s, c);
    JoinSplit(s, [c]);
    JoinLast(parts, [c]);
  }

  /** The last piece of a join follows the last separator. */
  lemma {:induction false} JoinLast<T>(parts: seq<seq<T>>, sep: seq<T>)
    requires |parts| >= 2
    ensures Join(parts, sep) == Join(parts[..|parts| - 1], sep) + sep + Last(parts)
    decreases |parts|
  {
    var n := |parts|;
    if n == 2 {
      assert parts[..1] == [parts[0]];
      assert parts[1..] == [parts[1]];
    } else {
      JoinLast(parts[1..], sep);
      assert parts[1..][..n - 2] == parts[..n - 1][1..];
      assert Last(parts[1..]) == Last(parts);
    }
  }

  /** No occurrence of `t` starts anywhere in a string that does not contain it. */
  lemma {:induction false} NotContainsAt<T>(s: seq<T>, t: seq<T>, k: nat)
    requires !Contains(s, t) && k <= |s|
    ensures !StartsWith(s[k..], t)
    decreases k
  {
    if k == 0 {
      assert s[0..] == s;
    } else {
      assert s[1..][k - 1..] == s[k..];
      NotContainsAt(s[1..], t, k - 1);
    }
  }

  /** A string without the separator splits into itself alone. */
  lemma {:induction false} SplitWhole<T>(s: seq<T>, sep: seq<T>)
    requires |sep| > 0 && !Contains(s, sep)
    ensures Split(s, sep) == [s]
    decreases |s|
  {
    if |s| >= |sep| {
      SplitWhole(s[1..], sep);
      assert [s[0]] + s[1..] == s;
    }
  }

  /** When no occurrence of `sep` starts inside `p`, the split of `p + sep + rest`
      ends its first piece at that `sep`. */
  lemma {:induction false} SplitFirstPiece<T>(p: seq<T>, sep: seq<T>, rest: seq<T>)
    requires |sep| > 0
    requires forall k :: 0 <= k < |p| ==> !StartsWith((p + sep + rest)[k..], sep)
    ensures Split(p + sep + rest, sep) == [p] + Split(rest, sep)
    decreases |p|
  {
    var t := p + sep + rest;
    if p == [] {
      assert t == sep + rest && t[..|sep|] == sep && t[|sep|..] == rest;
    } else {
      assert t[0..] == t;
      var u := p[1..] + sep + rest;
      assert t[1..] == u;
      forall k | 0 <= k < |p[1..]| ensures !StartsWith(u[k..], sep) {
        assert u[k..] == t[k + 1..];
      }
      SplitFirstPiece(p[1..], sep, rest);
      assert [t[0]] + p[1..] == p;
    }
  }

  /** For a two-element separator whose elements differ, splitting a join gives back
      the pieces, provided none of them contains the separator. */
  lemma {:induction false} SplitJoinPair<T>(parts: seq<seq<T>>, a: T, b: T)
    requires a != b && |parts| >= 1
    requires forall i :: 0 <= i < |parts| ==> !Contains(parts[i], [a, b])
    ensures Split(Join(parts, [a, b]), [a, b]) == parts
    decreases |parts|
  {
    if |parts| == 1 {
      SplitWhole(parts[0], [a, b]);
    } else {
      var p, rest := parts[0], Join(parts[1..], [a, b]);
      var t := p + [a, b] + rest;
      forall k | 0 <= k < |p| ensures !StartsWith(t[k..], [a, b]) {
        if k + 2 <= |p| {
          NotContainsAt(p, [a, b], k);
          assert t[k..][..2] == p[k..][..2];
        } else {
          assert t[k..][1] == a;
        }
      }
      SplitFirstPiece(p, [a, b], rest);
      SplitJoinPair(parts[1..], a, b);
      assert [p] + parts[1..] == parts;
    }
  }

  /** The first piece of a split is a prefix of the string. */
  lemma SplitFirstIsPrefix<T>(s: seq<T>, sep: seq<T>)
    requires |sep| > 0
    ensures StartsWith(s, Split(s, sep)[0])
  {
    JoinSplit(s, sep);
    JoinEnds(Split(s, sep), sep);
  }

  /** No piece of a split contains the separator. */
  lemma {:induction false} SplitPiecesFree<T>(s: seq<T>, sep: seq<T>)
    requires |sep| > 0
    ensures forall i :: 0 <= i < |Split(s, sep)| ==> !Contains(Split(s, sep)[i], sep)
    decreases |s|
  {
    var parts := Split(s, sep);
    if |s| < |sep| {
      if Contains(s, sep) {
        ContainsIsLonger(s, sep);
      }
    } else if s[..|sep|] == sep {
      SplitPiecesFree(s[|sep|..], sep);
      assert !Contains(parts[0], sep) by {
        if Contains(parts[0], sep) {
          ContainsIsLonger(parts[0], sep);
        }
      }
      assert forall i :: 1 <= i < |parts| ==> parts[i] == Split(s[|sep|..], sep)[i - 1];
    } else {
      var rest := Split(s[1..], sep);
      SplitPiecesFree(s[1..], sep);
      SplitFirstIsPrefix(s[1..], sep);
      var first := [s[0]] + rest[0];
      assert !StartsWith(first, sep) by {
        if |sep| <= |first| {
          assert first[..|sep|] == s[..|sep|];
        }
      }
      assert first[1..] == rest[0];
      assert forall i :: 1 <= i < |parts| ==> parts[i] == rest[i];
    }
  }

  // ---------------------------------------------------------------------------
  // Decimal numerals
  // ---------------------------------------------------------------------------

  predicate IsDigit(c: char)
  {
    '0' <= c <= '9'
  }

  predicate AllDigits(s: string)
  {
    forall k :: 0 <= k < |s| ==> IsDigit(s[k])
  }

  function DigitChar(d: nat): (c: char)
    requires d < 10
    ensures IsDigit(c)
  {
    (d + '0' as int) as char
  }

  function DigitValue(c: char): (d: nat)
    requires IsDigit(c)
    ensures d < 10 && DigitChar(d) == c
  {
    c as int - '0' as int
  }

  /** `n.toString()` for a non-negative integer: the shortest decimal numeral. */
  function Decimal(n: nat): (s: string)
    ensures 1 <= |s| && AllDigits(s)
    ensures |s| == 1 <==> n < 10
    ensures n < 100 ==> |s| <= 2
    ensures |s| > 1 ==> s[0] != '0'
    decreases n
  {
    if n < 10 then [DigitChar(n)] else Decimal(n / 10) + [DigitChar(n % 10)]
  }

  /** The value of a numeral, leading zeros allowed (the inverse of `Decimal`). */
  function DecimalValue(s: string): nat
    requires AllDigits(s)
    decreases |s|
  {
    if s == [] then 0 else DecimalValue(s[..|s| - 1]) * 10 + DigitValue(s[|s| - 1])
  }

  lemma {:induction false} DecimalRoundTrip(n: nat)
    ensures DecimalValue(Decimal(n)) == n
    decreases n
  {
    if n >= 10 {
      DecimalRoundTrip(n / 10);
      var s := Decimal(n);
      assert s[..|s| - 1] == Decimal(n / 10);
    }
  }

  /** A leading zero does not change the value of a numeral. */
  lemma {:induction false} LeadingZero(s: string)
    requires AllDigits(s)
    ensures AllDigits(['0'] + s) && DecimalValue(['0'] + s) == DecimalValue(s)
    decreases |s|
  {
    if s != [] {
      var z := ['0'] + s;
      assert z[..|z| - 1] == ['0'] + s[..|s| - 1];
      LeadingZero(s[..|s| - 1]);
    }
  }

  /** `n` copies of `c`. */
  function Repeat(c: char, n: nat): (r: string)
    ensures |r| == n && forall k :: 0 <= k < n ==> r[k] == c
  {
    seq(n, _ => c)
  }

  /** JavaScript `s.padStart(width, fill)` for a one-character fill. */
  function PadStart(s: string, width: nat, fill: char): (r: string)
    ensures |r| == if |s| < width then width else |s|
    ensures EndsWith(r, s)
    ensures forall k :: 0 <= k < |r| - |s| ==> r[k] == fill
  {
    if |s| < width then Repeat(fill, width - |s|) + s else s
  }

  /** Padding a numeral with zeros keeps its value. */
  lemma {:induction false} ZeroPadKeepsValue(s: string, width: nat)
    requires AllDigits(s)
    ensures AllDigits(PadStart(s, width, '0'))
    ensures DecimalValue(PadStart(s, width, '0')) == DecimalValue(s)
    decreases width
  {
    if |s| < width {
      ZeroPadKeepsValue(s, width - 1);
      var p := PadStart(s, width - 1, '0');
      LeadingZero(p);
      PadOneMore(s, width);
    }
  }

  /** One more column of padding is one more leading fill character. */
  lemma PadOneMore(s: string, width: nat)
    requires |s| < width
    ensures PadStart(s, width, '0') == ['0'] + PadStart(s, width - 1, '0')
  {
    var n := width - |s|;
    assert Repeat('0', n) == ['0'] + Repeat('0', n - 1);
  }

  // ---------------------------------------------------------------------------
  // ASCII classes
  // ---------------------------------------------------------------------------

  predicate IsAsciiLower(c: char)
  {
    'a' <= c <= 'z'
  }

  predicate IsAsciiUpper(c: char)
  {
    'A' <= c <= 'Z'
  }

  /** The characters the pattern `[a-z0-9]` with the `i` flag accepts. */
  predicate IsAsciiAlnum(c: char)
  {
    IsAsciiLower(c) || IsAsciiUpper(c) || IsDigit(c)
  }

  /** `toLowerCase` restricted to ASCII letters; every other character is kept. */
  function AsciiLower(c: char): (r: char)
    ensures IsAsciiUpper(c) ==> IsAsciiLower(r) && r as int == c as int + 32
    ensures !IsAsciiUpper(c) ==> r == c
  {
    if IsAsciiUpper(c) then (c as int + 32) as char else c
  }
}
