/** Option and Result, used for Java's null and for thrown exceptions. */
module Wrappers {

  datatype Option<T> = None | Some(value: T)

  datatype Result<T, E> = Success(value: T) | Failure(error: E) {

    predicate IsFailure() {
      Failure?
    }

    function PropagateFailure<U>(): Result<U, E>
      requires Failure?
    {
      Failure(error)
    }

    function Extract(): T
      requires Success?
    {
      value
    }
  }
}

/**
 * The few pieces of java.lang that the modelled code relies on: the exceptions it can raise,
 * 32-bit int arithmetic, and the String operations it calls. Strings are sequences of Unicode
 * scalar values; where the source compares UTF-16 lengths, Utf16Length says so explicitly.
 */
module JavaLang {
  import opened Wrappers

  /** The exceptions the modelled code can raise, by kind. */
  datatype Error =
    | NullPointer
    | IndexOutOfBounds
    | NoSuchElement
    | IllegalArgument
    | NumberFormat
    | ClassCast
    | BufferUnderflow
    | PatternSyntax
    | JijimakuError
    | UnexpectedError
    | UnexpectedCriticalError

  // ---------------------------------------------------------------- 32-bit int

  const INT_MIN: int := -0x8000_0000
  const INT_MAX: int := 0x7FFF_FFFF

  predicate InInt32(x: int) {
    INT_MIN <= x <= INT_MAX
  }

  /** Two's complement wrap-around of a Java int addition or cast. */
  function Wrap32(x: int): (r: int)
    ensures InInt32(r)
    ensures InInt32(x) ==> r == x
    ensures (r - x) % 0x1_0000_0000 == 0
  {
    (x + 0x8000_0000) % 0x1_0000_0000 - 0x8000_0000
  }

  // ---------------------------------------------------------------- joining

  /** Collectors.joining(sep) / String.join(sep, parts). */
  function Join(parts: seq<string>, sep: string): string
  {
    if |parts| == 0 then ""
    else if |parts| == 1 then parts[0]
    else parts[0] + sep + Join(parts[1..], sep)
  }

  /** Joining with the empty separator is plain concatenation, which distributes over +. */
  lemma {:induction false} JoinEmptyAppend(a: seq<string>, b: seq<string>)
    ensures Join(a + b, "") == Join(a, "") + Join(b, "")
    decreases |a|
  {
    if |a| == 0 {
      assert a + b == b;
    } else if |a| == 1 {
      if |b| == 0 {
        assert a + b == a;
      } else {
        assert (a + b)[1..] == b;
      }
    } else {
      assert (a + b)[1..] == a[1..] + b;
      JoinEmptyAppend(a[1..], b);
    }
  }

  /** Appending one more piece to a separator-less join appends that piece. */
  lemma JoinEmptySnoc(parts: seq<string>, x: string)
    ensures Join(parts + [x], "") == Join(parts, "") + x
  {
    JoinEmptyAppend(parts, [x]);
  }

  /** Appending one more piece to a non-empty join appends the separator and that piece. */
  lemma {:induction false} JoinSnoc(parts: seq<string>, x: string, sep: string)
    requires |parts| > 0
    ensures Join(parts + [x], sep) == Join(parts, sep) + sep + x
    decreases |parts|
  {
    if |parts| == 1 {
      assert (parts + [x])[1..] == [x];
    } else {
      assert (parts + [x])[1..] == parts[1..] + [x];
      JoinSnoc(parts[1..], x, sep);
    }
  }

  // ---------------------------------------------------------------- searching

  predicate IsPrefix(p: string, s: string) {
    |p| <= |s| && s[..|p|] == p
  }

  /** t occurs in s starting at position j. */
  predicate OccursAt(s: string, t: string, j: int) {
    0 <= j && j + |t| <= |s| && s[j..j + |t|] == t
  }

  /** String.contains. */
  predicate Contains(s: string, t: string) {
    exists j | 0 <= j <= |s| :: OccursAt(s, t, j)
  }

  /** String.indexOf(t, from), with Java's treatment of a negative or too large start. */
  function IndexOfFrom(s: string, t: string, from: int): (r: int)
    ensures -1 <= r <= |s|
    ensures r >= 0 ==> OccursAt(s, t, r) && r >= (if from < 0 then 0 else if from > |s| then |s| else from)
    ensures r >= 0 ==> forall j {:trigger OccursAt(s, t, j)} :: (if from < 0 then 0 else from) <= j < r ==> !OccursAt(s, t, j)
    ensures r == -1 ==> forall j {:trigger OccursAt(s, t, j)} :: (if from < 0 then 0 else from) <= j ==> !OccursAt(s, t, j)
    decreases |s| - from
  {
    if from < 0 then IndexOfFrom(s, t, 0)
    else if from >= |s| then (if |t| == 0 then |s| else -1)
    else if from + |t| > |s| then -1
    else if s[from..from + |t|] == t then from
    else IndexOfFrom(s, t, from + 1)
  }

  /** String.indexOf(t). */
  function IndexOf(s: string, t: string): (r: int)
    ensures -1 <= r <= |s|
    ensures r >= 0 ==> OccursAt(s, t, r) && forall j {:trigger OccursAt(s, t, j)} :: 0 <= j < r ==> !OccursAt(s, t, j)
    ensures r == -1 <==> !Contains(s, t)
  {
    IndexOfFrom(s, t, 0)
  }

  /** An occurrence inside an occurrence is an occurrence. */
  lemma OccursWithin(s: string, u: string, t: string, a: int, b: int)
    requires OccursAt(s, u, a) && OccursAt(u, t, b)
    ensures OccursAt(s, t, a + b)
  {
    assert forall k :: 0 <= k < |t| ==> s[a + b + k] == s[a..a + |u|][b + k] == u[b + k] == t[k];
  }

  /** Every part occurs in the joined string. */
  lemma {:induction false} JoinHasPart(parts: seq<string>, sep: string, i: nat) returns (j: nat)
    requires i < |parts|
    ensures OccursAt(Join(parts, sep), parts[i], j)
    decreases |parts|
  {
    if i == 0 {
      j := 0;
      JoinStartsWithFirst(parts, sep);
    } else {
      var j' := JoinHasPart(parts[1..], sep, i - 1);
      j := |parts[0]| + |sep| + j';
      OccursAfter(parts[0] + sep, Join(parts[1..], sep), parts[i], j');
    }
  }

  lemma JoinStartsWithFirst(parts: seq<string>, sep: string)
    requires |parts| > 0
    ensures OccursAt(Join(parts, sep), parts[0], 0)
  {
    if |parts| > 1 {
      assert (parts[0] + sep + Join(parts[1..], sep))[..|parts[0]|] == parts[0];
    }
  }

  /** An occurrence in b is an occurrence in a + b, shifted by |a|. */
  lemma OccursAfter(a: string, b: string, t: string, j: int)
    requires OccursAt(b, t, j)
    ensures OccursAt(a + b, t, |a| + j)
  {
    assert (a + b)[|a| + j..|a| + j + |t|] == b[j..j + |t|];
  }

  /** A string contained in one of the parts is contained in the joined string. */
  lemma JoinContains(parts: seq<string>, sep: string, i: nat, t: string)
    requires i < |parts| && Contains(parts[i], t)
    ensures Contains(Join(parts, sep), t)
  {
    var a := JoinHasPart(parts, sep, i);
    var b :| 0 <= b <= |parts[i]| && OccursAt(parts[i], t, b);
    OccursWithin(Join(parts, sep), parts[i], t, a, b);
  }

  // ---------------------------------------------------------------- rewriting

  /** String.replace(char, char). */
  function ReplaceChar(s: string, a: char, b: char): (r: string)
    ensures |r| == |s|
    ensures forall i :: 0 <= i < |s| ==> r[i] == (if s[i] == a then b else s[i])
  {
    seq(|s|, i requires 0 <= i < |s| => if s[i] == a then b else s[i])
  }

  /**
   * String.replace(CharSequence, CharSequence): every non-overlapping occurrence of t, left to
   * right, becomes r; an empty t inserts r before every character and at the end.
   */
  function ReplaceAll(s: string, t: string, r: string): string
    decreases |s|
  {
    if |t| == 0 then r + (if |s| == 0 then "" else [s[0]] + ReplaceAll(s[1..], t, r))
    else if |s| < |t| then s
    else if s[..|t|] == t then r + ReplaceAll(s[|t|..], t, r)
    else [s[0]] + ReplaceAll(s[1..], t, r)
  }

  /** Replacing a word that does not occur changes nothing. */
  lemma {:induction false} ReplaceAllAbsent(s: string, t: string, r: string)
    requires |t| > 0 && !Contains(s, t)
    ensures ReplaceAll(s, t, r) == s
    decreases |s|
  {
    if |s| >= |t| {
      assert !OccursAt(s, t, 0);
      forall j | OccursAt(s[1..], t, j) ensures OccursAt(s, t, j + 1) {
        assert s[1..][j..j + |t|] == s[j + 1..j + 1 + |t|];
      }
      ReplaceAllAbsent(s[1..], t, r);
    }
  }

  /** Replacing a word by itself changes nothing. */
  lemma {:induction false} ReplaceAllSelf(s: string, t: string)
    requires |t| > 0
    ensures ReplaceAll(s, t, t) == s
    decreases |s|
  {
    if |s| >= |t| {
      if s[..|t|] == t {
        ReplaceAllSelf(s[|t|..], t);
        assert s == s[..|t|] + s[|t|..];
      } else {
        ReplaceAllSelf(s[1..], t);
        assert s == [s[0]] + s[1..];
      }
    }
  }

  // ---------------------------------------------------------------- characters

  /** A character matched by the regex class \s. */
  predicate IsRegexSpace(c: char) {
    c == ' ' || c == '\t' || c == '\n' || c == '\U{000B}' || c == '\U{000C}' || c == '\r'
  }

  function ToLowerChar(c: char): (r: char)
    ensures 'A' <= c <= 'Z' ==> r as int == c as int + 32
    ensures !('A' <= c <= 'Z') ==> r == c
  {
    if 'A' <= c <= 'Z' then (c as int + 32) as char else c
  }

  function ToUpperChar(c: char): (r: char)
    ensures 'a' <= c <= 'z' ==> r as int == c as int - 32
    ensures !('a' <= c <= 'z') ==> r == c
  {
    if 'a' <= c <= 'z' then (c as int - 32) as char else c
  }

  /** String.toLowerCase, on the ASCII letters. */
  function ToLower(s: string): (r: string)
    ensures |r| == |s|
    ensures forall i :: 0 <= i < |s| ==> r[i] == ToLowerChar(s[i])
  {
    seq(|s|, i requires 0 <= i < |s| => ToLowerChar(s[i]))
  }

  /** String.toUpperCase, on the ASCII letters. */
  function ToUpper(s: string): (r: string)
    ensures |r| == |s|
    ensures forall i :: 0 <= i < |s| ==> r[i] == ToUpperChar(s[i])
  {
    seq(|s|, i requires 0 <= i < |s| => ToUpperChar(s[i]))
  }

  /** String.length(): the number of UTF-16 code units. */
  function Utf16Length(s: string): (n: nat)
    ensures |s| <= n <= 2 * |s|
  {
    if |s| == 0 then 0 else Utf16Length(s[..|s| - 1]) + (if s[|s| - 1] as int > 0xFFFF then 2 else 1)
  }

  /** String.trim(): drop leading and trailing characters not above U+0020. */
  function Trim(s: string): string
  {
    TrimEnd(TrimStart(s))
  }

  function TrimStart(s: string): string
  {
    if |s| > 0 && s[0] <= ' ' then TrimStart(s[1..]) else s
  }

  function TrimEnd(s: string): string
  {
    if |s| > 0 && s[|s| - 1] <= ' ' then TrimEnd(s[..|s| - 1]) else s
  }

  /**
   * Trim keeps one slice of s that starts and ends above U+0020, and drops only characters not
   * above U+0020 around it.
   */
  lemma TrimSlice(s: string) returns (i: nat)
    ensures OccursAt(s, Trim(s), i)
    ensures |Trim(s)| > 0 ==> Trim(s)[0] > ' ' && Trim(s)[|Trim(s)| - 1] > ' '
    ensures forall k :: 0 <= k < i ==> s[k] <= ' '
    ensures forall k :: i + |Trim(s)| <= k < |s| ==> s[k] <= ' '
  {
    var t := TrimStart(s);
    TrimStartSlice(s);
    TrimEndSlice(t);
    i := |s| - |t|;
    var r := TrimEnd(t);
    assert s[i..i + |r|] == r;
    forall k | i + |r| <= k < |s|
      ensures s[k] <= ' '
    {
      assert s[k] == t[k - i];
    }
  }

  lemma {:induction false} TrimStartSlice(s: string)
    ensures |TrimStart(s)| <= |s| && TrimStart(s) == s[|s| - |TrimStart(s)|..]
    ensures |TrimStart(s)| > 0 ==> TrimStart(s)[0] > ' '
    ensures forall k :: 0 <= k < |s| - |TrimStart(s)| ==> s[k] <= ' '
    decreases |s|
  {
    if |s| > 0 && s[0] <= ' ' {
      TrimStartSlice(s[1..]);
    }
  }

  lemma {:induction false} TrimEndSlice(s: string)
    ensures |TrimEnd(s)| <= |s| && TrimEnd(s) == s[..|TrimEnd(s)|]
    ensures |TrimEnd(s)| > 0 ==> TrimEnd(s)[|TrimEnd(s)| - 1] > ' '
    ensures forall k :: |TrimEnd(s)| <= k < |s| ==> s[k] <= ' '
    decreases |s|
  {
    if |s| > 0 && s[|s| - 1] <= ' ' {
      TrimEndSlice(s[..|s| - 1]);
    }
  }

  // ---------------------------------------------------------------- splitting

  /** The pieces of s between occurrences of the character c (c never occurs in a piece). */
  function SplitChar(s: string, c: char): (r: seq<string>)
    ensures |r| > 0
    ensures forall i, j :: 0 <= i < |r| && 0 <= j < |r[i]| ==> r[i][j] != c
    decreases |s|
  {
    var k := IndexOf(s, [c]);
    if k < 0 then
      assert forall j :: 0 <= j < |s| ==> s[j] != c by {
        forall j | 0 <= j < |s| ensures s[j] != c {
          assert !OccursAt(s, [c], j);
          assert s[j..j + 1] == [s[j]];
        }
      }
      [s]
    else
      var head := s[..k];
      assert forall j :: 0 <= j < |head| ==> head[j] != c by {
        forall j | 0 <= j < |head| ensures head[j] != c {
          assert !OccursAt(s, [c], j);
          assert s[j..j + 1] == [s[j]];
        }
      }
      [head] + SplitChar(s[k + 1..], c)
  }

  /** Splitting on a character and joining with it again gives back the string. */
  lemma {:induction false} SplitCharJoin(s: string, c: char)
    ensures Join(SplitChar(s, c), [c]) == s
    decreases |s|
  {
    var k := SplitCharStep(s, c);
    if k >= 0 {
      var rest := SplitChar(s[k + 1..], c);
      SplitCharJoin(s[k + 1..], c);
      JoinCons(s[..k], rest, [c]);
      assert s == s[..k] + [c] + s[k + 1..];
    }
  }

  /** One step of SplitChar: the first occurrence k of c, if any, ends the first piece. */
  lemma SplitCharStep(s: string, c: char) returns (k: int)
    ensures k < 0 ==> SplitChar(s, c) == [s]
    ensures k >= 0 ==> k < |s| && s[k] == c && SplitChar(s, c) == [s[..k]] + SplitChar(s[k + 1..], c)
  {
    k := IndexOf(s, [c]);
    if k >= 0 {
      assert OccursAt(s, [c], k);
      assert s[k..k + 1] == [c];
    }
  }

  lemma JoinCons(head: string, rest: seq<string>, sep: string)
    requires |rest| > 0
    ensures Join([head] + rest, sep) == head + sep + Join(rest, sep)
  {
    assert ([head] + rest)[1..] == rest;
  }

  function TrimRegexSpaceStart(s: string): (r: string)
    ensures |r| <= |s| && r == s[|s| - |r|..]
    ensures |r| > 0 ==> !IsRegexSpace(r[0])
  {
    if |s| > 0 && IsRegexSpace(s[0]) then TrimRegexSpaceStart(s[1..]) else s
  }

  function TrimRegexSpaceEnd(s: string): (r: string)
    ensures |r| <= |s| && r == s[..|r|]
    ensures |r| > 0 ==> !IsRegexSpace(r[|r| - 1])
  {
    if |s| > 0 && IsRegexSpace(s[|s| - 1]) then TrimRegexSpaceEnd(s[..|s| - 1]) else s
  }

  /** The list without its trailing empty strings. */
  function DropTrailingEmpty(parts: seq<string>): (r: seq<string>)
    ensures |r| <= |parts| && r == parts[..|r|]
    ensures |r| > 0 ==> |r[|r| - 1]| > 0
    ensures forall i :: |r| <= i < |parts| ==> parts[i] == ""
  {
    if |parts| > 0 && parts[|parts| - 1] == "" then DropTrailingEmpty(parts[..|parts| - 1]) else parts
  }

  /**
   * String.split("\\s*,\\s*"): a string without a comma is its own only piece; otherwise the
   * pieces between commas lose the whitespace next to those commas, and trailing empty pieces are
   * dropped.
   */
  function SplitOnComma(s: string): (r: seq<string>)
  {
    var raw := SplitChar(s, ',');
    if |raw| == 1 then [s]
    else
      DropTrailingEmpty(seq(|raw|, i requires 0 <= i < |raw| => TrimPiece(raw, i)))
  }

  /** Piece i of a comma split loses the whitespace next to the commas around it, and nothing else. */
  function TrimPiece(raw: seq<string>, i: nat): (r: string)
    requires i < |raw|
    ensures forall ch :: ch in r ==> ch in raw[i]
  {
    var p := if i > 0 then TrimRegexSpaceStart(raw[i]) else raw[i];
    if i < |raw| - 1 then TrimRegexSpaceEnd(p) else p
  }

  /** No piece of the split holds a comma, and a string without a comma is left whole. */
  lemma SplitOnCommaPieces(s: string)
    ensures forall i, j :: 0 <= i < |SplitOnComma(s)| && 0 <= j < |SplitOnComma(s)[i]| ==> SplitOnComma(s)[i][j] != ','
    ensures (forall j :: 0 <= j < |s| ==> s[j] != ',') ==> SplitOnComma(s) == [s]
  {
    var raw := SplitChar(s, ',');
    if |raw| == 1 {
      SplitCharJoin(s, ',');
      assert Join(raw, ",") == raw[0];
    } else {
      TrimmedPiecesCommaFree(s);
      var k := IndexOf(s, ",");
      assert k >= 0 by {
        assert SplitChar(s, ',') != [s];
      }
      assert s[k..k + 1] == ",";
      assert s[k] == ',';
    }
  }

  /** Trimming the pieces of a split keeps them free of the separator. */
  lemma TrimmedPiecesCommaFree(s: string)
    requires |SplitChar(s, ',')| != 1
    ensures forall i, j :: 0 <= i < |SplitOnComma(s)| && 0 <= j < |SplitOnComma(s)[i]| ==> SplitOnComma(s)[i][j] != ','
  {
    var raw := SplitChar(s, ',');
    var trimmed := seq(|raw|, i requires 0 <= i < |raw| => TrimPiece(raw, i));
    var r := SplitOnComma(s);
    assert r == DropTrailingEmpty(trimmed);
    forall i, j | 0 <= i < |r| && 0 <= j < |r[i]|
      ensures r[i][j] != ','
    {
      assert r[i] == TrimPiece(raw, i);
      assert r[i][j] in raw[i];
    }
  }

  // ---------------------------------------------------------------- decimal numbers

  predicate IsDigit(c: char) {
    '0' <= c <= '9'
  }

  predicate AllDigits(s: string) {
    forall i :: 0 <= i < |s| ==> IsDigit(s[i])
  }

  function DigitsValue(s: string): nat
    requires AllDigits(s)
  {
    if |s| == 0 then 0 else 10 * DigitsValue(s[..|s| - 1]) + (s[|s| - 1] as int - '0' as int)
  }

  /** Integer.parseInt: an optional sign, at least one digit, and a value that fits an int. */
  function ParseInt(s: string): (r: Result<int, Error>)
    ensures r.Success? ==> InInt32(r.value)
    ensures |s| == 0 ==> r == Failure(NumberFormat)
  {
    var signed := |s| > 0 && (s[0] == '-' || s[0] == '+');
    var digits := if signed then s[1..] else s;
    if |digits| == 0 || !AllDigits(digits) then Failure(NumberFormat)
    else
      var v: int := if |s| > 0 && s[0] == '-' then 0 - DigitsValue(digits) as int else DigitsValue(digits);
      if InInt32(v) then Success(v) else Failure(NumberFormat)
  }

  function DigitChar(d: nat): (c: char)
    requires d < 10
    ensures IsDigit(c) && c as int - '0' as int == d
  {
    ('0' as int + d) as char
  }

  function NatToString(n: nat): (s: string)
    ensures |s| > 0 && AllDigits(s)
  {
    if n < 10 then [DigitChar(n)] else NatToString(n / 10) + [DigitChar(n % 10)]
  }

  /** Integer.toString / "%d" / string concatenation of an int. */
  function IntToString(n: int): (s: string)
    ensures |s| > 0
  {
    if n < 0 then "-" + NatToString(-n) else NatToString(n)
  }

  lemma {:induction false} NatToStringValue(n: nat)
    ensures DigitsValue(NatToString(n)) == n
  {
    if n >= 10 {
      NatToStringValue(n / 10);
      var s := NatToString(n);
      assert s[..|s| - 1] == NatToString(n / 10);
    }
  }

  /** parseInt reads back what toString writes. */
  lemma ParseIntToString(n: int)
    requires InInt32(n)
    ensures ParseInt(IntToString(n)) == Success(n)
  {
    if n < 0 {
      ParseIntNegative(n);
    } else {
      NatToStringValue(n);
      var s := NatToString(n);
      assert s[0] != '-' && s[0] != '+' by {
        assert IsDigit(s[0]);
      }
    }
  }

  lemma ParseIntNegative(n: int)
    requires InInt32(n) && n < 0
    ensures ParseInt(IntToString(n)) == Success(n)
  {
    var digits := NatToString(-n);
    NatToStringValue(-n);
    var s := IntToString(n);
    assert s == "-" + digits;
    assert s[1..] == digits;
  }
}
