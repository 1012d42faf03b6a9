/**
 * The parts of Python's `str` and `bytes` behaviour the model relies on:
 * prefix tests, `replace`, `split`/`join`, whitespace splitting and
 * stripping, `int()` on decimal text, `bytes.fromhex` and strict UTF-8
 * decoding.
 */
module Strings {
  import opened Wrappers

  /** A byte of a Python `bytes` value. */
  type byte = b: int | 0 <= b < 256

  predicate StartsWith<T(==)>(s: seq<T>, p: seq<T>) {
    |p| <= |s| && s[..|p|] == p
  }

  predicate EndsWith<T(==)>(s: seq<T>, p: seq<T>) {
    |p| <= |s| && s[|s| - |p|..] == p
  }

  /** `sub in s` for sequences. */
  predicate Contains<T(==)>(s: seq<T>, sub: seq<T>) {
    exists i :: 0 <= i <= |s| && StartsWith(s[i..], sub)
  }

  /** A pattern found inside a slice is found in the whole sequence. */
  lemma ContainsSlice<T>(s: seq<T>, a: nat, b: nat, sub: seq<T>)
    requires a <= b <= |s| && Contains(s[a..b], sub)
    ensures Contains(s, sub)
  {
    var i :| 0 <= i <= b - a && StartsWith(s[a..b][i..], sub);
    var e := a + i + |sub|;
    assert e <= b;
    assert s[a..b][i..][..|sub|] == s[a + i..e];
    assert s[a + i..][..|sub|] == s[a + i..e];
  }

  /**
   * `s.replace(pat, rep)`: occurrences of `pat` are replaced from left
   * to right and never overlap.
   */
  function ReplaceAll<T(==)>(s: seq<T>, pat: seq<T>, rep: seq<T>): seq<T>
    requires pat != []
    decreases |s|
  {
    if s == [] then []
    else if StartsWith(s, pat) then rep + ReplaceAll(s[|pat|..], pat, rep)
    else [s[0]] + ReplaceAll(s[1..], pat, rep)
  }

  /** An element found in neither the input nor the replacement cannot appear in the output. */
  lemma {:induction false} ReplaceAllAbsent<T>(s: seq<T>, pat: seq<T>, rep: seq<T>, x: T)
    requires pat != [] && x !in s && x !in rep
    ensures x !in ReplaceAll(s, pat, rep)
    decreases |s|
  {
    if s == [] {
    } else if StartsWith(s, pat) {
      ReplaceAllAbsent(s[|pat|..], pat, rep, x);
    } else {
      ReplaceAllAbsent(s[1..], pat, rep, x);
    }
  }

  /** Replacing a single element removes every occurrence of it when the replacement does not contain it. */
  lemma {:induction false} ReplaceAllRemoves<T>(s: seq<T>, x: T, rep: seq<T>)
    requires x !in rep
    ensures x !in ReplaceAll(s, [x], rep)
    decreases |s|
  {
    if s == [] {
    } else if StartsWith(s, [x]) {
      ReplaceAllRemoves(s[1..], x, rep);
    } else {
      assert s[0] != x;
      ReplaceAllRemoves(s[1..], x, rep);
    }
  }

  /** Every element of the output comes from the input or from the replacement. */
  lemma {:induction false} ReplaceAllFrom<T>(s: seq<T>, pat: seq<T>, rep: seq<T>, y: T)
    requires pat != []
    requires y in ReplaceAll(s, pat, rep)
    ensures y in s || y in rep
    decreases |s|
  {
    if s == [] {
    } else if StartsWith(s, pat) {
      if y !in rep {
        ReplaceAllFrom(s[|pat|..], pat, rep, y);
      }
    } else if y != s[0] {
      ReplaceAllFrom(s[1..], pat, rep, y);
    }
  }

  /** Replacing a single element distributes over concatenation. */
  lemma {:induction false} ReplaceOneAppend<T>(a: seq<T>, b: seq<T>, x: T, rep: seq<T>)
    ensures ReplaceAll(a + b, [x], rep) == ReplaceAll(a, [x], rep) + ReplaceAll(b, [x], rep)
    decreases |a|
  {
    if a != [] {
      assert (a + b)[1..] == a[1..] + b;
      assert (a + b)[0] == a[0];
      ReplaceOneAppend(a[1..], b, x, rep);
    } else {
      assert a + b == b;
    }
  }

  /** Text without the replaced element is left unchanged. */
  lemma {:induction false} ReplaceOneAbsent<T>(s: seq<T>, x: T, rep: seq<T>)
    requires x !in s
    ensures ReplaceAll(s, [x], rep) == s
    decreases |s|
  {
    if s != [] {
      ReplaceOneAbsent(s[1..], x, rep);
      assert [s[0]] + s[1..] == s;
    }
  }

  /**
   * `replace` distributes over a concatenation when no occurrence of the
   * pattern can start in the last `|pat| - 1` elements of the first part.
   */
  lemma {:induction false} ReplaceAllAppend<T>(x: seq<T>, y: seq<T>, pat: seq<T>, rep: seq<T>)
    requires pat != []
    requires forall i :: 0 <= i < |x| && i > |x| - |pat| ==> x[i] != pat[0]
    ensures ReplaceAll(x + y, pat, rep) == ReplaceAll(x, pat, rep) + ReplaceAll(y, pat, rep)
    decreases |x|
  {
    if x == [] {
      assert x + y == y;
    } else {
      var xy := x + y;
      assert xy[0] == x[0];
      if |x| >= |pat| {
        assert xy[..|pat|] == x[..|pat|];
      } else {
        assert x[0] != pat[0];
      }
      if StartsWith(x, pat) {
        assert xy[|pat|..] == x[|pat|..] + y;
        ReplaceAllAppend(x[|pat|..], y, pat, rep);
      } else {
        assert xy[1..] == x[1..] + y;
        ReplaceAllAppend(x[1..], y, pat, rep);
      }
    }
  }

  /** Text in which the pattern's first element never occurs is left unchanged. */
  lemma ReplaceAllFree<T>(s: seq<T>, pat: seq<T>, rep: seq<T>)
    requires pat != []
    ensures pat[0] !in s ==> ReplaceAll(s, pat, rep) == s
  {
    if pat[0] !in s && s != [] {
      assert s[0] != pat[0];
      ReplaceAllUnchanged(s, pat, rep);
    }
  }

  /** A replacement no longer than its pattern never lengthens the text. */
  lemma {:induction false} ReplaceAllShorter<T>(s: seq<T>, pat: seq<T>, rep: seq<T>)
    requires pat != [] && |rep| <= |pat|
    ensures |ReplaceAll(s, pat, rep)| <= |s|
    decreases |s|
  {
    if s != [] {
      if StartsWith(s, pat) {
        ReplaceAllShorter(s[|pat|..], pat, rep);
      } else {
        ReplaceAllShorter(s[1..], pat, rep);
      }
    }
  }

  /** Text in which the pattern's first element occurs at most in front is unchanged unless it starts with the pattern. */
  lemma {:induction false} ReplaceAllUnchanged<T>(s: seq<T>, pat: seq<T>, rep: seq<T>)
    requires pat != [] && !StartsWith(s, pat)
    requires forall i :: 0 < i < |s| ==> s[i] != pat[0]
    ensures ReplaceAll(s, pat, rep) == s
    decreases |s|
  {
    if s != [] {
      var t := s[1..];
      if t != [] {
        assert t[0] != pat[0];
        assert !StartsWith(t, pat);
        ReplaceAllUnchanged(t, pat, rep);
      }
      assert [s[0]] + t == s;
    }
  }

  // ---------------------------------------------------------------- split / join

  /** `s.split(sep)` for a one-element separator: always at least one piece. */
  function Split<T(==)>(s: seq<T>, sep: T): (r: seq<seq<T>>)
    ensures |r| >= 1
    decreases |s|
  {
    if s == [] then [[]]
    else if s[0] == sep then [[]] + Split(s[1..], sep)
    else
      var rest := Split(s[1..], sep);
      [[s[0]] + rest[0]] + rest[1..]
  }

  /** `sep.join(parts)`. */
  function Join<T>(parts: seq<seq<T>>, sep: seq<T>): seq<T> {
    if parts == [] then []
    else if |parts| == 1 then parts[0]
    else parts[0] + sep + Join(parts[1..], sep)
  }

  /** The separator never occurs inside a piece produced by `Split`. */
  lemma {:induction false} SplitPiecesFree<T>(s: seq<T>, sep: T)
    ensures forall k :: 0 <= k < |Split(s, sep)| ==> sep !in Split(s, sep)[k]
    decreases |s|
  {
    if s == [] {
    } else {
      SplitPiecesFree(s[1..], sep);
    }
  }

  /** Joining the pieces of a split gives the text back. */
  lemma {:induction false} JoinSplit<T>(s: seq<T>, sep: T)
    ensures Join(Split(s, sep), [sep]) == s
    decreases |s|
  {
    if s == [] {
    } else {
      var rest := Split(s[1..], sep);
      JoinSplit(s[1..], sep);
      if s[0] == sep {
        assert Split(s, sep) == [[]] + rest;
        assert ([[]] + rest)[1..] == rest;
      } else {
        var r := Split(s, sep);
        assert r == [[s[0]] + rest[0]] + rest[1..];
        if |rest| == 1 {
          assert Join(r, [sep]) == [s[0]] + rest[0];
        } else {
          assert r[1..] == rest[1..];
          assert Join(rest, [sep]) == rest[0] + [sep] + Join(rest[1..], [sep]);
        }
      }
    }
  }

  /** Splitting a join whose pieces avoid the separator gives the pieces back. */
  lemma {:induction false} SplitJoin<T>(parts: seq<seq<T>>, sep: T)
    requires |parts| >= 1
    requires forall k :: 0 <= k < |parts| ==> sep !in parts[k]
    ensures Split(Join(parts, [sep]), sep) == parts
    decreases |parts|, |parts[0]|
  {
    var p := parts[0];
    if |parts| == 1 {
      SplitNoSep(p, sep);
    } else if p == [] {
      var tail := Join(parts[1..], [sep]);
      assert Join(parts, [sep]) == [sep] + tail;
      SplitJoin(parts[1..], sep);
      assert ([sep] + tail)[1..] == tail;
      assert [[]] + parts[1..] == parts;
    } else {
      var shorter := [p[1..]] + parts[1..];
      assert shorter[1..] == parts[1..];
      SplitJoin(shorter, sep);
      var s := Join(parts, [sep]);
      assert s == [p[0]] + Join(shorter, [sep]);
      assert s[1..] == Join(shorter, [sep]);
      assert [p[0]] + p[1..] == p;
      assert [p] + parts[1..] == parts;
    }
  }

  /** A text without the separator splits into itself alone. */
  lemma {:induction false} SplitNoSep<T>(s: seq<T>, sep: T)
    requires sep !in s
    ensures Split(s, sep) == [s]
    decreases |s|
  {
    if s != [] {
      SplitNoSep(s[1..], sep);
      assert [s[0]] + s[1..] == s;
    }
  }

  /** `s.count(x)` for a single element. */
  function Count<T(==)>(s: seq<T>, x: T): nat
    decreases |s|
  {
    if s == [] then 0 else (if s[0] == x then 1 else 0) + Count(s[1..], x)
  }

  /** Splitting at an element gives one piece more than it occurs. */
  lemma {:induction false} CountSplit<T>(s: seq<T>, sep: T)
    ensures |Split(s, sep)| == Count(s, sep) + 1
    decreases |s|
  {
    if s != [] {
      CountSplit(s[1..], sep);
    }
  }

  // ---------------------------------------------------------------- whitespace

  /** An ASCII letter, what `[a-zA-Z]` matches. */
  predicate IsAsciiLetter(c: char) {
    'a' <= c <= 'z' || 'A' <= c <= 'Z'
  }

  /** The characters for which Python's `str.isspace()` holds (also what `\s` matches in a `str` pattern). */
  predicate IsSpace(c: char) {
    c == ' ' || ('\t' <= c <= '\r') || ('\U{001c}' <= c <= '\U{001f}') || c == '\U{0085}' || c == '\U{00a0}'
    || c == '\U{1680}' || ('\U{2000}' <= c <= '\U{200a}') || c == '\U{2028}' || c == '\U{2029}'
    || c == '\U{202f}' || c == '\U{205f}' || c == '\U{3000}'
  }

  /** The bytes that `bytes.split()` and `bytes.fromhex` treat as whitespace. */
  predicate IsAsciiSpace(b: int) {
    b == 0x20 || 9 <= b <= 13
  }

  /** A byte, held as a character below 256, that `bytes.split()` and `bytes.strip()` treat as whitespace. */
  predicate IsByteSpace(c: char) {
    IsAsciiSpace(c as int)
  }

  /** Length of the leading run of non-whitespace bytes. */
  function ByteWordLength(s: string): (n: nat)
    ensures n <= |s|
    ensures forall k :: 0 <= k < n ==> !IsByteSpace(s[k])
    ensures n < |s| ==> IsByteSpace(s[n])
  {
    if s == [] || IsByteSpace(s[0]) then 0 else 1 + ByteWordLength(s[1..])
  }

  /** `b.split()` on a bytes object: the maximal runs of non-whitespace bytes, in order. */
  function ByteWords(s: string): (r: seq<string>)
    ensures forall k :: 0 <= k < |r| ==> r[k] != [] && forall c :: c in r[k] ==> !IsByteSpace(c)
    decreases |s|
  {
    if s == [] then []
    else if IsByteSpace(s[0]) then ByteWords(s[1..])
    else
      var n := ByteWordLength(s);
      [s[..n]] + ByteWords(s[n..])
  }

  /** Words separated by single spaces come back from `split()` unchanged. */
  lemma {:induction false} ByteWordsJoin(ws: seq<string>)
    requires forall k :: 0 <= k < |ws| ==> ws[k] != [] && forall c :: c in ws[k] ==> !IsByteSpace(c)
    ensures ByteWords(Join(ws, " ")) == ws
    decreases |ws|
  {
    if ws == [] {
    } else {
      var w := ws[0];
      var s := Join(ws, " ");
      assert s[..|w|] == w;
      ByteWordLengthOf(s, |w|);
      if |ws| == 1 {
        assert s[|w|..] == [];
      } else {
        var tail := Join(ws[1..], " ");
        assert s == w + " " + tail;
        assert s[|w|..] == " " + tail;
        assert (" " + tail)[1..] == tail;
        ByteWordsJoin(ws[1..]);
      }
    }
  }

  lemma {:induction false} ByteWordLengthOf(s: string, n: nat)
    requires n <= |s|
    requires forall k :: 0 <= k < n ==> !IsByteSpace(s[k])
    requires n < |s| ==> IsByteSpace(s[n])
    ensures ByteWordLength(s) == n
    decreases n
  {
    if n > 0 {
      ByteWordLengthOf(s[1..], n - 1);
    }
  }

  /** `b.strip()` on a bytes object: leading and trailing ASCII whitespace removed. */
  function ByteStrip(s: string): (r: string)
    ensures r == [] || (!IsByteSpace(r[0]) && !IsByteSpace(r[|r| - 1]))
    ensures forall c :: c in r ==> c in s
    decreases |s|
  {
    if s == [] then []
    else if IsByteSpace(s[0]) then ByteStrip(s[1..])
    else if IsByteSpace(s[|s| - 1]) then ByteStrip(s[..|s| - 1])
    else s
  }

  /** `s.strip()`: leading and trailing whitespace removed. */
  function Strip(s: string): (r: string)
    ensures r == [] || (!IsSpace(r[0]) && !IsSpace(r[|r| - 1]))
    ensures forall c :: c in r ==> c in s
    decreases |s|
  {
    if s == [] then []
    else if IsSpace(s[0]) then Strip(s[1..])
    else if IsSpace(s[|s| - 1]) then Strip(s[..|s| - 1])
    else s
  }

  /** `s.strip(chars)` for an explicit element set. */
  function StripSet<T(==)>(s: seq<T>, chars: set<T>): (r: seq<T>)
    ensures r == [] || (r[0] !in chars && r[|r| - 1] !in chars)
    decreases |s|
  {
    if s == [] then []
    else if s[0] in chars then StripSet(s[1..], chars)
    else if s[|s| - 1] in chars then StripSet(s[..|s| - 1], chars)
    else s
  }

  /** Every element left after removing a set is outside it. */
  function RemoveAll<T(==)>(s: seq<T>, drop: set<T>): (r: seq<T>)
    ensures forall x :: x in r ==> x in s && x !in drop
    ensures forall x :: x in s && x !in drop ==> x in r
  {
    if s == [] then [] else (if s[0] in drop then [] else [s[0]]) + RemoveAll(s[1..], drop)
  }

  // ---------------------------------------------------------------- case

  /** ASCII lower-casing of one character. */
  function LowerChar(c: char): char {
    if 'A' <= c <= 'Z' then (c as int + 32) as char else c
  }

  /** ASCII upper-casing of one character. */
  function UpperChar(c: char): char {
    if 'a' <= c <= 'z' then (c as int - 32) as char else c
  }

  function Lower(s: string): (r: string)
    ensures |r| == |s| && forall k :: 0 <= k < |s| ==> r[k] == LowerChar(s[k])
  {
    if s == [] then [] else [LowerChar(s[0])] + Lower(s[1..])
  }

  function Upper(s: string): (r: string)
    ensures |r| == |s| && forall k :: 0 <= k < |s| ==> r[k] == UpperChar(s[k])
  {
    if s == [] then [] else [UpperChar(s[0])] + Upper(s[1..])
  }

  // ---------------------------------------------------------------- decimal integers

  predicate IsDigit(c: char) {
    '0' <= c <= '9'
  }

  predicate AllDigits(s: string) {
    forall k :: 0 <= k < |s| ==> IsDigit(s[k])
  }

  function DigitChar(d: nat): (c: char)
    requires d < 10
    ensures IsDigit(c)
    ensures c as int - '0' as int == d
  {
    ('0' as int + d) as char
  }

  /** `str(n)` for a natural number. */
  function NatToString(n: nat): (s: string)
    ensures s != [] && AllDigits(s)
  {
    if n < 10 then [DigitChar(n)] else NatToString(n / 10) + [DigitChar(n % 10)]
  }

  /** `str(i)` for an integer. */
  function IntToString(i: int): (s: string)
    ensures s != []
  {
    if i < 0 then "-" + NatToString(-i) else NatToString(i)
  }

  /** `str(i)` is made of digits and, for a negative number, a leading `-`. */
  lemma IntToStringChars(i: int)
    ensures forall c :: c in IntToString(i) ==> c == '-' || IsDigit(c)
  {
    var d := NatToString(if i < 0 then -i else i);
    assert forall c :: c in d ==> IsDigit(c);
  }

  /** The value of a string of decimal digits. */
  function DigitsValue(s: string): nat
    requires AllDigits(s)
  {
    if s == [] then 0 else DigitsValue(s[..|s| - 1]) * 10 + (s[|s| - 1] as int - '0' as int)
  }

  lemma {:induction false} DigitsOfNat(n: nat)
    ensures DigitsValue(NatToString(n)) == n
  {
    if n >= 10 {
      var s := NatToString(n);
      assert s[..|s| - 1] == NatToString(n / 10);
      DigitsOfNat(n / 10);
    }
  }

  /** Distinct naturals print differently. */
  lemma NatToStringInjective(a: nat, b: nat)
    requires NatToString(a) == NatToString(b)
    ensures a == b
  {
    DigitsOfNat(a);
    DigitsOfNat(b);
  }

  /** `int(s)` on a decimal literal without whitespace: optional sign, then at least one digit. */
  function ParseSigned(s: string): Option<int> {
    if s != [] && (s[0] == '-' || s[0] == '+') && |s| > 1 && AllDigits(s[1..]) then
      Some(if s[0] == '-' then -(DigitsValue(s[1..]) as int) else DigitsValue(s[1..]))
    else if s != [] && AllDigits(s) then Some(DigitsValue(s))
    else None
  }

  /**
   * Python's `int(s)` for base-10 text: surrounding whitespace is ignored,
   * anything else than an optionally signed run of ASCII digits raises
   * `ValueError` (here: `None`).
   */
  function ParseInt(s: string): Option<int> {
    ParseSigned(Strip(s))
  }

  /**
   * `int(b)` for a bytes object: only ASCII whitespace around an optionally
   * signed run of ASCII digits is ignored.
   */
  function ParseByteInt(s: string): Option<int> {
    ParseSigned(ByteStrip(s))
  }

  /** Text holding no ASCII whitespace at all is read by `int(b)` as it stands. */
  lemma ParseByteIntNoSpace(s: string)
    requires forall c :: c in s ==> !IsByteSpace(c)
    ensures ParseByteInt(s) == ParseSigned(s)
  {
    if s != [] {
      assert s[0] in s && s[|s| - 1] in s;
    }
  }

  /** `int(str(i).encode()) == i`. */
  lemma ParseByteIntToString(i: int)
    ensures ParseByteInt(IntToString(i)) == Some(i)
  {
    var s := IntToString(i);
    IntToStringChars(i);
    assert s[0] in s && s[|s| - 1] in s;
    StripNoSpace(s);
    ParseIntToString(i);
    ParseByteIntNoSpace(s);
  }

  lemma StripNoSpace(s: string)
    requires s != [] && !IsSpace(s[0]) && !IsSpace(s[|s| - 1])
    ensures Strip(s) == s
  {
  }

  /** `int(str(i)) == i`. */
  lemma ParseIntToString(i: int)
    ensures ParseInt(IntToString(i)) == Some(i)
  {
    var s := IntToString(i);
    if i < 0 {
      var d := NatToString(-i);
      assert s == "-" + d;
      assert !IsSpace(s[|s| - 1]) by { assert s[|s| - 1] == d[|d| - 1]; }
      StripNoSpace(s);
      assert s[1..] == d;
      DigitsOfNat(-i);
      assert ParseSigned(s) == Some(i);
    } else {
      assert !IsSpace(s[0]) && !IsSpace(s[|s| - 1]);
      StripNoSpace(s);
      DigitsOfNat(i);
      assert ParseSigned(s) == Some(i);
    }
  }

  // ---------------------------------------------------------------- hexadecimal

  predicate IsHexDigit(c: char) {
    ('0' <= c <= '9') || ('a' <= c <= 'f') || ('A' <= c <= 'F')
  }

  function HexDigitValue(c: char): (v: nat)
    requires IsHexDigit(c)
    ensures v < 16
  {
    if '0' <= c <= '9' then c as int - '0' as int
    else if 'a' <= c <= 'f' then c as int - 'a' as int + 10
    else c as int - 'A' as int + 10
  }

  function HexChar(d: nat): (c: char)
    requires d < 16
    ensures IsHexDigit(c) && HexDigitValue(c) == d
  {
    if d < 10 then ('0' as int + d) as char else ('a' as int + d - 10) as char
  }

  /** `bytes.fromhex(s)`: pairs of hex digits, ASCII whitespace skipped between pairs; otherwise `ValueError`. */
  function FromHex(s: string): Option<seq<byte>>
    decreases |s|
  {
    if s == [] then Some([])
    else if IsAsciiSpace(s[0] as int) then FromHex(s[1..])
    else if |s| >= 2 && IsHexDigit(s[0]) && IsHexDigit(s[1]) then
      match FromHex(s[2..])
      case None => None
      case Some(rest) => Some([HexDigitValue(s[0]) * 16 + HexDigitValue(s[1])] + rest)
    else None
  }

  /** `bytes.hex()`: two lower-case digits per byte. */
  function ToHex(b: seq<byte>): (s: string)
    ensures |s| == 2 * |b|
  {
    if b == [] then [] else [HexChar(b[0] / 16), HexChar(b[0] % 16)] + ToHex(b[1..])
  }

  /** `bytes.fromhex(b.hex()) == b`. */
  lemma {:induction false} FromHexToHex(b: seq<byte>)
    ensures FromHex(ToHex(b)) == Some(b)
  {
    if b != [] {
      var s := ToHex(b);
      assert s[2..] == ToHex(b[1..]);
      FromHexToHex(b[1..]);
      assert [b[0]] + b[1..] == b;
    }
  }

  // ---------------------------------------------------------------- UTF-8

  predicate IsContinuation(b: byte) {
    0x80 <= b < 0xC0
  }

  function Prepend(c: char, rest: Option<string>): Option<string> {
    match rest
    case None => None
    case Some(r) => Some([c] + r)
  }

  /**
   * `b.decode('utf-8')` in strict mode: overlong forms, surrogates and code
   * points above U+10FFFF raise `UnicodeDecodeError` (here: `None`).
   */
  function Utf8Decode(b: seq<byte>): Option<string>
    decreases |b|
  {
    if b == [] then Some([])
    else if b[0] < 0x80 then Prepend(b[0] as char, Utf8Decode(b[1..]))
    else if 0xC2 <= b[0] <= 0xDF && |b| >= 2 && IsContinuation(b[1]) then
      Prepend(((b[0] as int - 0xC0) * 64 + (b[1] as int - 0x80)) as char, Utf8Decode(b[2..]))
    else if 0xE0 <= b[0] <= 0xEF && |b| >= 3 && IsContinuation(b[1]) && IsContinuation(b[2])
            && (b[0] == 0xE0 ==> b[1] >= 0xA0) && (b[0] == 0xED ==> b[1] < 0xA0) then
      Prepend(((b[0] as int - 0xE0) * 4096 + (b[1] as int - 0x80) * 64 + (b[2] as int - 0x80)) as char, Utf8Decode(b[3..]))
    else if 0xF0 <= b[0] <= 0xF4 && |b| >= 4 && IsContinuation(b[1]) && IsContinuation(b[2])
            && IsContinuation(b[3]) && (b[0] == 0xF0 ==> b[1] >= 0x90) && (b[0] == 0xF4 ==> b[1] < 0x90) then
      Prepend(((b[0] as int - 0xF0) * 262144 + (b[1] as int - 0x80) * 4096 + (b[2] as int - 0x80) * 64 + (b[3] as int - 0x80)) as char,
              Utf8Decode(b[4..]))
    else None
  }

  predicate IsAscii(b: seq<byte>) {
    forall k :: 0 <= k < |b| ==> b[k] < 0x80
  }

  /** The characters an ASCII byte string stands for. */
  function AsciiChars(b: seq<byte>): (s: string)
    requires IsAscii(b)
    ensures |s| == |b| && forall k :: 0 <= k < |b| ==> s[k] as int == b[k]
  {
    if b == [] then [] else [b[0] as char] + AsciiChars(b[1..])
  }

  /** ASCII bytes always decode, one character per byte. */
  lemma {:induction false} Utf8DecodeAscii(b: seq<byte>)
    requires IsAscii(b)
    ensures Utf8Decode(b) == Some(AsciiChars(b))
  {
    if b != [] {
      Utf8DecodeAscii(b[1..]);
    }
  }

  /** The ASCII encoding of text made of ASCII characters. */
  function AsciiBytes(s: string): (b: seq<byte>)
    requires forall k :: 0 <= k < |s| ==> s[k] as int < 0x80
    ensures |b| == |s| && IsAscii(b) && AsciiChars(b) == s
  {
    if s == [] then [] else [s[0] as int as byte] + AsciiBytes(s[1..])
  }

  /** Decoding never produces a NUL character from bytes without a NUL byte. */
  lemma {:induction false} Utf8DecodeNoNul(b: seq<byte>)
    requires 0 !in b
    ensures Utf8Decode(b).Some? ==> '\0' !in Utf8Decode(b).value
    decreases |b|
  {
    if b != [] {
      assert b[0] in b;
      if b[0] < 0x80 {
        Utf8DecodeNoNul(b[1..]);
      } else if |b| >= 2 {
        assert forall k :: 1 <= k < |b| ==> b[k] in b;
        if 0xC2 <= b[0] <= 0xDF && IsContinuation(b[1]) {
          Utf8DecodeNoNul(b[2..]);
        } else if |b| >= 3 && 0xE0 <= b[0] <= 0xEF {
          Utf8DecodeNoNul(b[3..]);
        } else if |b| >= 4 {
          Utf8DecodeNoNul(b[4..]);
        }
      }
    }
  }
}
