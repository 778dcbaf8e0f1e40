/**
 * The small pieces of the Java and Android libraries that the modelled code
 * leans on: nullable values, `TextUtils.isEmpty`, `Integer.toString`,
 * `String.split` and ASCII lower-casing. Text is a `string`, a sequence of
 * Unicode characters; where the code counts a Java `String`'s length in
 * UTF-16 code units, the text is a `JavaString`, the result of `Utf16`.
 * `null` is `None`.
 */
module JavaLang {

  datatype Option<+T> = None | Some(value: T)

  datatype Result<+T, +E> = Ok(value: T) | Err(error: E)

  /** A UTF-16 code unit, the element of a Java `String`. */
  type CodeUnit = u: int | 0 <= u < 0x1_0000

  /** A Java `String` as its code units; `length()` is `|s|`. */
  type JavaString = seq<CodeUnit>

  /** Whether a character is in the Basic Multilingual Plane, that is, takes one code unit. */
  predicate IsBmp(c: char) {
    c as int < 0x1_0000
  }

  /** The code units of one character: itself, or a high and a low surrogate. */
  function CharUnits(c: char): (u: JavaString)
    ensures |u| == if IsBmp(c) then 1 else 2
    ensures IsBmp(c) ==> u[0] == c as int
    ensures !IsBmp(c) ==> 0xD800 <= u[0] < 0xDC00 <= u[1] < 0xE000
  {
    if IsBmp(c) then [c as int]
    else
      var v := c as int - 0x1_0000;
      [0xD800 + v / 0x400, 0xDC00 + v % 0x400]
  }

  /** The UTF-16 encoding of a text, the code units Java stores for it. */
  function Utf16(s: string): (u: JavaString)
    ensures |s| <= |u| <= 2 * |s|
    ensures (forall i :: 0 <= i < |s| ==> IsBmp(s[i])) ==> |u| == |s|
  {
    if s == [] then [] else CharUnits(s[0]) + Utf16(s[1..])
  }

  /** `TextUtils.isEmpty`: true for `null` and for the empty string. */
  predicate IsEmpty(s: Option<string>) {
    s.None? || s.value == []
  }

  // ---------------------------------------------------------------------------
  // Integer.toString / Long.toString and its inverse

  predicate IsDigit(c: char) { '0' <= c <= '9' }

  predicate AllDigits(s: string) { forall i :: 0 <= i < |s| ==> IsDigit(s[i]) }

  /** The decimal digit for d; DigitValue reads it back. */
  function DigitChar(d: nat): (c: char)
    requires d < 10
    ensures IsDigit(c) && DigitValue(c) == d
  {
    ('0' as int + d) as char
  }

  function DigitValue(c: char): (d: nat)
    requires IsDigit(c)
    ensures d < 10
  {
    (c as int - '0' as int) as nat
  }

  /** Decimal digits of a natural number, most significant first, no leading zeros. */
  function NatToString(n: nat): (s: string)
    ensures |s| > 0 && AllDigits(s)
  {
    if n < 10 then [DigitChar(n)] else NatToString(n / 10) + [DigitChar(n % 10)]
  }

  /** `Integer.toString(n)` (and `Long.toString(n)`): a minus sign for negative values. */
  function IntToString(n: int): (s: string)
  {
    if n < 0 then "-" + NatToString(-n) else NatToString(n)
  }

  /** The value of a string of decimal digits. */
  function DigitsValue(s: string): nat
    requires AllDigits(s)
  {
    if s == [] then 0 else 10 * DigitsValue(s[..|s| - 1]) + DigitValue(s[|s| - 1])
  }

  /** `Integer.parseInt` restricted to what `IntToString` produces. */
  function ParseInt(s: string): int
    requires AllDigits(s) || (|s| > 0 && s[0] == '-' && AllDigits(s[1..]))
  {
    if |s| > 0 && s[0] == '-' then -(DigitsValue(s[1..]) as int) else DigitsValue(s)
  }

  lemma {:induction false} NatToStringValue(n: nat)
    ensures DigitsValue(NatToString(n)) == n
  {
    if n >= 10 {
      var s := NatToString(n);
      assert s[..|s| - 1] == NatToString(n / 10);
      NatToStringValue(n / 10);
    }
  }

  /** `IntToString` is a faithful decimal rendering: parsing it back yields the number. */
  lemma IntToStringRoundTrip(n: int)
    ensures var s := IntToString(n);
      |s| > 0 && (AllDigits(s) || (s[0] == '-' && AllDigits(s[1..]))) && ParseInt(s) == n
  {
    if n < 0 {
      NegativeRoundTrip(n);
    } else {
      NonNegativeRoundTrip(n);
    }
  }

  lemma NonNegativeRoundTrip(n: nat)
    ensures AllDigits(IntToString(n)) && ParseInt(IntToString(n)) == n
  {
    var s := NatToString(n);
    assert IntToString(n) == s;
    assert IsDigit(s[0]);
    NatToStringValue(n);
  }

  lemma NegativeRoundTrip(n: int)
    requires n < 0
    ensures var s := IntToString(n);
      |s| > 1 && s[0] == '-' && AllDigits(s[1..]) && ParseInt(s) == n
  {
    var digits := NatToString(-n);
    NatToStringValue(-n);
    var s := IntToString(n);
    assert s == ['-'] + digits;
    assert s[1..] == digits;
    assert DigitsValue(s[1..]) == -n;
  }

  lemma IntToStringInjective(a: int, b: int)
    requires IntToString(a) == IntToString(b)
    ensures a == b
  {
    IntToStringRoundTrip(a);
    IntToStringRoundTrip(b);
  }

  /** A decimal rendering consists of digits and possibly a leading minus sign only. */
  lemma IntToStringChars(n: int)
    ensures forall i :: 0 <= i < |IntToString(n)| ==> IsDigit(IntToString(n)[i]) || IntToString(n)[i] == '-'
  {
  }

  // ---------------------------------------------------------------------------
  // Joining and splitting on a separator character

  /** `xs` joined with `sep` between consecutive elements. */
  function Join(xs: seq<string>, sep: char): string
  {
    if xs == [] then "" else if |xs| == 1 then xs[0] else xs[0] + [sep] + Join(xs[1..], sep)
  }

  /** Appending one more element to a join, as a StringBuilder loop does. */
  lemma {:induction false} JoinSnoc(xs: seq<string>, x: string, sep: char)
    ensures Join(xs + [x], sep) == if xs == [] then x else Join(xs, sep) + [sep] + x
  {
    if |xs| > 1 {
      assert (xs + [x])[1..] == xs[1..] + [x];
      JoinSnoc(xs[1..], x, sep);
    } else if |xs| == 1 {
      assert (xs + [x])[1..] == [x];
    }
  }

  /** All pieces of `s` between occurrences of `sep`, empty pieces included. */
  function Split(s: string, sep: char): (r: seq<string>)
    ensures |r| > 0
  {
    if s == [] then [""]
    else
      var rest := Split(s[1..], sep);
      if s[0] == sep then [""] + rest else [[s[0]] + rest[0]] + rest[1..]
  }

  /** The number of occurrences of `c` in `s`. */
  function Occurrences(s: string, c: char): nat
  {
    if s == [] then 0 else (if s[0] == c then 1 else 0) + Occurrences(s[1..], c)
  }

  lemma {:induction false} SplitCount(s: string, sep: char)
    ensures |Split(s, sep)| == Occurrences(s, sep) + 1
  {
    if s != [] {
      SplitCount(s[1..], sep);
    }
  }

  lemma {:induction false} SplitPiecesAvoidSep(s: string, sep: char)
    ensures forall i :: 0 <= i < |Split(s, sep)| ==> sep !in Split(s, sep)[i]
  {
    if s != [] {
      SplitPiecesAvoidSep(s[1..], sep);
    }
  }

  /** Splitting a join gives back the joined pieces, provided none contains the separator. */
  lemma {:induction false} SplitJoin(xs: seq<string>, sep: char)
    requires |xs| > 0
    requires forall i :: 0 <= i < |xs| ==> sep !in xs[i]
    ensures Split(Join(xs, sep), sep) == xs
  {
    if |xs| == 1 {
      SplitNoSep(xs[0], sep);
    } else {
      SplitJoin(xs[1..], sep);
      SplitPrefix(xs[0], Join(xs[1..], sep), sep);
    }
  }

  lemma {:induction false} SplitNoSep(s: string, sep: char)
    requires sep !in s
    ensures Split(s, sep) == [s]
  {
    if s != [] {
      assert sep !in s[1..];
      SplitNoSep(s[1..], sep);
      assert [s[0]] + s[1..] == s;
    }
  }

  lemma {:induction false} SplitPrefix(a: string, b: string, sep: char)
    requires sep !in a
    ensures Split(a + [sep] + b, sep) == [a] + Split(b, sep)
  {
    if a == [] {
      assert a + [sep] + b == [sep] + b;
      assert ([sep] + b)[1..] == b;
    } else {
      assert (a + [sep] + b)[1..] == a[1..] + [sep] + b;
      SplitPrefix(a[1..], b, sep);
      assert [a[0]] + a[1..] == a;
    }
  }

  /** `xs` without its trailing empty strings. */
  function DropTrailingEmpty(xs: seq<string>): (r: seq<string>)
    ensures |r| <= |xs| && r == xs[..|r|]
    ensures r == [] || r[|r| - 1] != ""
  {
    if xs == [] then [] else if xs[|xs| - 1] == "" then DropTrailingEmpty(xs[..|xs| - 1]) else xs
  }

  /**
   * Java's `s.split(String.valueOf(sep))` with the default limit: when `sep`
   * does not occur the result is `s` alone (even the empty string); otherwise
   * the pieces with the trailing empty ones removed.
   */
  function JavaSplit(s: string, sep: char): seq<string>
  {
    if sep !in s then [s] else DropTrailingEmpty(Split(s, sep))
  }

  lemma {:induction false} SplitLastPiece(s: string, sep: char)
    requires s != [] && s[|s| - 1] != sep
    ensures Split(s, sep)[|Split(s, sep)| - 1] != ""
  {
    var rest := Split(s[1..], sep);
    if |s| == 1 {
      assert s[1..] == [];
      assert s[0] != sep && rest == [""];
      assert Split(s, sep) == [[s[0]] + rest[0]] + rest[1..];
    } else {
      assert s[1..][|s[1..]| - 1] == s[|s| - 1];
      SplitLastPiece(s[1..], sep);
      if s[0] == sep {
        assert Split(s, sep) == [""] + rest;
      } else {
        assert Split(s, sep) == [[s[0]] + rest[0]] + rest[1..];
      }
    }
  }

  /** Text ending with the separator splits into at least two pieces, the last one empty. */
  lemma {:induction false} SplitEndsEmpty(s: string, sep: char)
    requires s != [] && s[|s| - 1] == sep
    ensures |Split(s, sep)| >= 2 && Split(s, sep)[|Split(s, sep)| - 1] == ""
  {
    var rest := Split(s[1..], sep);
    if |s| == 1 {
      assert s[1..] == [] && s[0] == sep;
      assert Split(s, sep) == [""] + [""];
    } else {
      assert s[1..][|s[1..]| - 1] == s[|s| - 1];
      SplitEndsEmpty(s[1..], sep);
      if s[0] == sep {
        assert Split(s, sep) == [""] + rest;
      } else {
        assert Split(s, sep) == [[s[0]] + rest[0]] + rest[1..];
      }
    }
  }

  /**
   * The number of pieces `split` yields: one more than the number of
   * separators when the text does not end with one, and never more than that.
   */
  lemma JavaSplitCount(s: string, sep: char)
    ensures |JavaSplit(s, sep)| <= Occurrences(s, sep) + 1
    ensures s != [] && s[|s| - 1] != sep ==> |JavaSplit(s, sep)| == Occurrences(s, sep) + 1
    // a trailing separator leaves an empty last piece, which is dropped
    ensures s != [] && s[|s| - 1] == sep ==> |JavaSplit(s, sep)| < Occurrences(s, sep) + 1
  {
    if sep !in s {
      OccurrencesAbsent(s, sep);
      assert JavaSplit(s, sep) == [s];
    } else {
      var pieces := Split(s, sep);
      SplitCount(s, sep);
      assert JavaSplit(s, sep) == DropTrailingEmpty(pieces);
      if s != [] && s[|s| - 1] != sep {
        SplitLastPiece(s, sep);
        assert DropTrailingEmpty(pieces) == pieces;
      } else if s != [] {
        SplitEndsEmpty(s, sep);
        assert DropTrailingEmpty(pieces) == DropTrailingEmpty(pieces[..|pieces| - 1]);
      }
    }
  }

  lemma {:induction false} OccurrencesAbsent(s: string, c: char)
    requires c !in s
    ensures Occurrences(s, c) == 0
  {
    if s != [] {
      OccurrencesAbsent(s[1..], c);
    }
  }

  // ---------------------------------------------------------------------------
  // String.toLowerCase, for the ASCII letters

  function LowerChar(c: char): char {
    if 'A' <= c <= 'Z' then (c as int - 'A' as int + 'a' as int) as char else c
  }

  function ToLower(s: string): string
  {
    seq(|s|, i requires 0 <= i < |s| => LowerChar(s[i]))
  }

  /** Lower-casing twice is lower-casing once. */
  lemma ToLowerIdempotent(s: string)
    ensures ToLower(ToLower(s)) == ToLower(s)
  {
    forall i | 0 <= i < |s|
      ensures ToLower(ToLower(s))[i] == ToLower(s)[i]
    {
      assert 'A' <= ToLower(s)[i] <= 'Z' ==> false;
    }
  }
}
