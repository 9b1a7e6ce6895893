/**
 * PHP strings are byte strings. This module fixes that representation and
 * states the PHP string built-ins the framework core relies on: explode,
 * implode, str_replace, strtoupper/strtolower (ASCII only), basename, the
 * decimal rendering of an int, and empty() on a string.
 */
module ByteStrings {

  /** A byte, written as a character whose code is below 256 so that string literals can be used. */
  type Byte = c: char | c as int < 256
  type Bytes = seq<Byte>

  datatype Option<+T> = None | Some(value: T)

  predicate IsLower(c: Byte) { 'a' <= c <= 'z' }
  predicate IsUpper(c: Byte) { 'A' <= c <= 'Z' }
  predicate IsDigit(c: Byte) { '0' <= c <= '9' }

  /** strtoupper on one byte: only ASCII letters change. */
  function UpperByte(c: Byte): Byte {
    if IsLower(c) then (c as int - 32) as char else c
  }

  /** strtolower on one byte: only ASCII letters change. */
  function LowerByte(c: Byte): Byte {
    if IsUpper(c) then (c as int + 32) as char else c
  }

  function Upper(s: Bytes): Bytes {
    seq(|s|, i requires 0 <= i < |s| => UpperByte(s[i]))
  }

  function Lower(s: Bytes): Bytes {
    seq(|s|, i requires 0 <= i < |s| => LowerByte(s[i]))
  }

  /** PHP's empty() on a string value: the empty string and "0". */
  predicate IsEmptyString(s: Bytes) {
    s == "" || s == "0"
  }

  predicate OccursAt(s: Bytes, d: Bytes, i: int) {
    0 <= i && i + |d| <= |s| && s[i..i + |d|] == d
  }

  predicate Contains(s: Bytes, d: Bytes) {
    exists i | 0 <= i <= |s| - |d| :: OccursAt(s, d, i)
  }

  /** explode(d, s) for a non-empty delimiter: the pieces between the leftmost non-overlapping occurrences of d. */
  function Explode(d: Bytes, s: Bytes): (r: seq<Bytes>)
    requires |d| > 0
    ensures |r| >= 1
  {
    ExplodeFrom(d, s, [])
  }

  /** Scans s left to right; `piece` is the part of the current piece already read. */
  function ExplodeFrom(d: Bytes, s: Bytes, piece: Bytes): (r: seq<Bytes>)
    requires |d| > 0
    ensures |r| >= 1
    decreases |s|
  {
    if |s| < |d| then [piece + s]
    else if s[..|d|] == d then [piece] + ExplodeFrom(d, s[|d|..], [])
    else ExplodeFrom(d, s[1..], piece + [s[0]])
  }

  /** implode(d, pieces). */
  function Join(d: Bytes, pieces: seq<Bytes>): Bytes {
    if |pieces| == 0 then []
    else if |pieces| == 1 then pieces[0]
    else pieces[0] + d + Join(d, pieces[1..])
  }

  /** str_replace(needle, rep, s): every leftmost non-overlapping occurrence is replaced; an empty needle changes nothing. */
  function Replace(s: Bytes, needle: Bytes, rep: Bytes): Bytes
    decreases |s|
  {
    if |needle| == 0 || |s| < |needle| then s
    else if s[..|needle|] == needle then rep + Replace(s[|needle|..], needle, rep)
    else [s[0]] + Replace(s[1..], needle, rep)
  }

  /** The decimal rendering PHP gives an int when it is concatenated to a string. */
  function Decimal(i: int): Bytes {
    if i < 0 then "-" + Digits(-i) else Digits(i)
  }

  function Digits(n: nat): Bytes
    decreases n
  {
    if n < 10 then [('0' as int + n) as char]
    else Digits(n / 10) + [('0' as int + n % 10) as char]
  }

  /** basename() of a '/'-separated path: trailing slashes dropped, then what follows the last slash. */
  function Basename(p: Bytes): Bytes {
    AfterLastSlash(TrimTrailingSlashes(p))
  }

  function TrimTrailingSlashes(p: Bytes): Bytes
    decreases |p|
  {
    if |p| > 0 && p[|p| - 1] == '/' then TrimTrailingSlashes(p[..|p| - 1]) else p
  }

  function AfterLastSlash(p: Bytes): Bytes
    decreases |p|
  {
    if |p| == 0 || p[|p| - 1] == '/' then [] else AfterLastSlash(p[..|p| - 1]) + [p[|p| - 1]]
  }

  // ---------------------------------------------------------------- lemmas

  /** implode undoes explode: nothing is lost or reordered by splitting. */
  lemma {:induction false} JoinExplode(d: Bytes, s: Bytes)
    requires |d| > 0
    ensures Join(d, Explode(d, s)) == s
  {
    JoinExplodeFrom(d, s, []);
  }

  lemma {:induction false} JoinExplodeFrom(d: Bytes, s: Bytes, piece: Bytes)
    requires |d| > 0
    ensures Join(d, ExplodeFrom(d, s, piece)) == piece + s
    decreases |s|
  {
    if |s| < |d| {
    } else if s[..|d|] == d {
      var rest := ExplodeFrom(d, s[|d|..], []);
      JoinExplodeFrom(d, s[|d|..], []);
      assert ExplodeFrom(d, s, piece) == [piece] + rest;
      assert ([piece] + rest)[1..] == rest;
      assert s == d + s[|d|..];
    } else {
      JoinExplodeFrom(d, s[1..], piece + [s[0]]);
      assert piece + [s[0]] + s[1..] == piece + s;
    }
  }

  /** The first piece of explode is the whole string exactly when the delimiter does not occur in it. */
  lemma {:induction false} ExplodeFirstPiece(d: Bytes, s: Bytes)
    requires |d| > 0
    ensures Explode(d, s)[0] == s <==> !Contains(s, d)
  {
    ExplodeFromFirstPiece(d, s, []);
  }

  lemma {:induction false} ExplodeFromFirstPiece(d: Bytes, s: Bytes, piece: Bytes)
    requires |d| > 0
    ensures ExplodeFrom(d, s, piece)[0] == piece + s <==> !Contains(s, d)
    decreases |s|
  {
    if |s| < |d| {
    } else if s[..|d|] == d {
      assert OccursAt(s, d, 0);
      assert |piece + s| > |piece|;
    } else {
      ExplodeFromFirstPiece(d, s[1..], piece + [s[0]]);
      assert piece + [s[0]] + s[1..] == piece + s;
      ContainsShift(s, d);
    }
  }

  /** An occurrence that does not start at the front is an occurrence in the tail. */
  lemma ContainsShift(s: Bytes, d: Bytes)
    requires |s| >= 1 && !OccursAt(s, d, 0)
    ensures Contains(s, d) <==> Contains(s[1..], d)
  {
    var t := s[1..];
    if Contains(s, d) {
      var i :| 0 <= i <= |s| - |d| && OccursAt(s, d, i);
      assert i != 0;
      assert t[i - 1..i - 1 + |d|] == s[i..i + |d|];
      assert OccursAt(t, d, i - 1);
    }
    if Contains(t, d) {
      var i :| 0 <= i <= |t| - |d| && OccursAt(t, d, i);
      assert t[i..i + |d|] == s[i + 1..i + 1 + |d|];
      assert OccursAt(s, d, i + 1);
    }
  }

  /**
   * When x holds no byte of the delimiter's first byte, explode of x + d + y
   * has x as its first piece and continues exactly as explode of y.
   */
  lemma {:induction false} ExplodeAfterPrefix(d: Bytes, x: Bytes, y: Bytes)
    requires |d| > 0
    requires d[0] !in x
    ensures Explode(d, x + d + y) == [x] + Explode(d, y)
  {
    ExplodeFromAfterPrefix(d, [], x, y);
    assert [] + x == x;
  }

  lemma {:induction false} ExplodeFromAfterPrefix(d: Bytes, piece: Bytes, x: Bytes, y: Bytes)
    requires |d| > 0
    requires d[0] !in x
    ensures ExplodeFrom(d, x + d + y, piece) == [piece + x] + ExplodeFrom(d, y, [])
    decreases |x|
  {
    var s := x + d + y;
    if |x| == 0 {
      assert s == d + y;
      assert s[..|d|] == d && s[|d|..] == y;
      assert ExplodeFrom(d, s, piece) == [piece] + ExplodeFrom(d, y, []);
      assert piece + x == piece;
    } else {
      assert x[0] in x;
      assert s[0] == x[0] && s[..|d|][0] != d[0];
      assert s[1..] == x[1..] + d + y;
      assert ExplodeFrom(d, s, piece) == ExplodeFrom(d, x[1..] + d + y, piece + [x[0]]);
      ExplodeFromAfterPrefix(d, piece + [x[0]], x[1..], y);
      assert piece + [x[0]] + x[1..] == piece + x;
    }
  }

  /** A string without the delimiter explodes into itself alone. */
  lemma {:induction false} ExplodeWithoutDelimiter(d: Bytes, s: Bytes)
    requires |d| > 0
    requires !Contains(s, d)
    ensures Explode(d, s) == [s]
  {
    ExplodeFromWithoutDelimiter(d, s, []);
    assert [] + s == s;
  }

  lemma {:induction false} ExplodeFromWithoutDelimiter(d: Bytes, s: Bytes, piece: Bytes)
    requires |d| > 0
    requires !Contains(s, d)
    ensures ExplodeFrom(d, s, piece) == [piece + s]
    decreases |s|
  {
    if |s| >= |d| {
      assert !OccursAt(s, d, 0);
      ContainsShift(s, d);
      ExplodeFromWithoutDelimiter(d, s[1..], piece + [s[0]]);
      assert piece + [s[0]] + s[1..] == piece + s;
    }
  }

  /** A one-byte delimiter occurs exactly when the byte does. */
  lemma ContainsByte(s: Bytes, b: Byte)
    ensures Contains(s, [b]) <==> b in s
  {
    if b in s {
      var i :| 0 <= i < |s| && s[i] == b;
      assert OccursAt(s, [b], i);
    }
    if Contains(s, [b]) {
      var i :| 0 <= i <= |s| - 1 && OccursAt(s, [b], i);
      assert s[i..i + 1][0] == s[i];
    }
  }

  /** Replacing a needle by itself leaves the string unchanged. */
  lemma {:induction false} ReplaceBySelf(s: Bytes, needle: Bytes)
    ensures Replace(s, needle, needle) == s
    decreases |s|
  {
    if |needle| == 0 || |s| < |needle| {
    } else if s[..|needle|] == needle {
      ReplaceBySelf(s[|needle|..], needle);
      assert s == needle + s[|needle|..];
    } else {
      ReplaceBySelf(s[1..], needle);
      assert s == [s[0]] + s[1..];
    }
  }

  /** When a one-byte needle is replaced by text without that byte, the byte is gone from the result. */
  lemma {:induction false} ReplaceByteRemovesIt(s: Bytes, b: Byte, rep: Bytes)
    requires b !in rep
    ensures b !in Replace(s, [b], rep)
    decreases |s|
  {
    if |s| == 0 {
    } else if s[..1] == [b] {
      ReplaceByteRemovesIt(s[1..], b, rep);
    } else {
      assert s[0] != b by { assert s[..1][0] == s[0]; }
      ReplaceByteRemovesIt(s[1..], b, rep);
    }
  }

  /** A string with no occurrence of the needle is returned unchanged. */
  lemma {:induction false} ReplaceAbsent(s: Bytes, needle: Bytes, rep: Bytes)
    requires !Contains(s, needle)
    ensures Replace(s, needle, rep) == s
    decreases |s|
  {
    if |needle| == 0 || |s| < |needle| {
    } else {
      assert !OccursAt(s, needle, 0);
      ContainsShift(s, needle);
      ReplaceAbsent(s[1..], needle, rep);
      assert s == [s[0]] + s[1..];
    }
  }

  /** An int rendered in decimal holds only digits and possibly a leading minus sign. */
  lemma {:induction false} DecimalHasNoEquals(i: int)
    ensures '=' !in Decimal(i)
    ensures forall k :: 0 <= k < |Decimal(i)| ==> IsDigit(Decimal(i)[k]) || (k == 0 && i < 0)
  {
    if i < 0 {
      DigitsAreDigits(-i);
    } else {
      DigitsAreDigits(i);
    }
  }

  lemma {:induction false} DigitsAreDigits(n: nat)
    ensures |Digits(n)| >= 1
    ensures forall k :: 0 <= k < |Digits(n)| ==> IsDigit(Digits(n)[k])
    decreases n
  {
    if n >= 10 {
      DigitsAreDigits(n / 10);
    }
  }

  /** explode(d, s, 2): the text before the first occurrence of d and everything after it, or None when d does not occur. */
  function SplitFirst(d: Bytes, s: Bytes): Option<(Bytes, Bytes)>
    requires |d| > 0
    decreases |s|
  {
    if |s| < |d| then None
    else if s[..|d|] == d then Some(([], s[|d|..]))
    else match SplitFirst(d, s[1..])
      case None => None
      case Some(parts) => Some(([s[0]] + parts.0, parts.1))
  }

  /** Splitting x + d + y at the first d gives back x and y whole, when x holds no byte equal to d's first byte. */
  lemma {:induction false} SplitFirstAfterPrefix(d: Bytes, x: Bytes, y: Bytes)
    requires |d| > 0
    requires d[0] !in x
    ensures SplitFirst(d, x + d + y) == Some((x, y))
    decreases |x|
  {
    var s := x + d + y;
    if |x| == 0 {
      assert s == d + y;
      assert s[..|d|] == d && s[|d|..] == y;
    } else {
      assert x[0] in x;
      assert s[0] == x[0] && s[..|d|][0] != d[0];
      assert s[1..] == x[1..] + d + y;
      SplitFirstAfterPrefix(d, x[1..], y);
      assert [x[0]] + x[1..] == x;
    }
  }
}
