/** The string operations of Rust's `str` that the program relies on, on
    `seq<char>`: `split` on one character, `to_uppercase` (ASCII letters),
    `replacen(from, to, 1)` and decimal formatting of an unsigned integer. */
module Strings {

  /** `s.split(sep).collect()`: the pieces between occurrences of `sep`,
      keeping empty pieces, so there is always at least one. */
  function Split(s: string, sep: char): (parts: seq<string>)
    ensures |parts| >= 1
    ensures forall i :: 0 <= i < |parts| ==> sep !in parts[i]
    decreases |s|
  {
    if |s| == 0 then [""]
    else
      var rest := Split(s[1..], sep);
      if s[0] == sep then [""] + rest
      else [[s[0]] + rest[0]] + rest[1..]
  }

  /** The inverse of `Split`: the pieces glued back with `sep` between them. */
  function Join(parts: seq<string>, sep: char): string
    requires |parts| >= 1
    decreases |parts|
  {
    if |parts| == 1 then parts[0] else parts[0] + [sep] + Join(parts[1..], sep)
  }

  /** Splitting and joining again gives back the original string. */
  lemma {:induction false} JoinSplit(s: string, sep: char)
    ensures Join(Split(s, sep), sep) == s
    decreases |s|
  {
    if |s| > 0 {
      JoinSplit(s[1..], sep);
      var rest := Split(s[1..], sep);
      if s[0] != sep {
        if |rest| > 1 {
          assert rest == [rest[0]] + rest[1..];
          assert Join(rest, sep) == rest[0] + [sep] + Join(rest[1..], sep);
          assert ([s[0]] + rest[0]) + [sep] + Join(rest[1..], sep) == [s[0]] + Join(rest, sep);
        }
        assert s == [s[0]] + s[1..];
      } else {
        assert s == [sep] + s[1..];
      }
    }
  }

  /** A string without `sep` is one piece. */
  lemma {:induction false} SplitWithout(s: string, sep: char)
    requires sep !in s
    ensures Split(s, sep) == [s]
    decreases |s|
  {
    if |s| > 0 {
      assert sep !in s[1..] by {
        forall i | 0 <= i < |s[1..]| ensures s[1..][i] != sep { assert s[1..][i] == s[i + 1]; }
      }
      SplitWithout(s[1..], sep);
      assert [s[0]] + s[1..] == s;
    }
  }

  /** The first piece is everything before the first `sep`; the remaining
      pieces are those of the text after it. */
  lemma {:induction false} SplitAtFirst(a: string, b: string, sep: char)
    requires sep !in a
    ensures Split(a + [sep] + b, sep) == [a] + Split(b, sep)
    decreases |a|
  {
    var s := a + [sep] + b;
    if |a| == 0 {
      assert s[1..] == b;
    } else {
      assert s[1..] == a[1..] + [sep] + b;
      assert sep !in a[1..] by {
        forall i | 0 <= i < |a[1..]| ensures a[1..][i] != sep { assert a[1..][i] == a[i + 1]; }
      }
      SplitAtFirst(a[1..], b, sep);
      assert s[0] == a[0];
      assert [a[0]] + a[1..] == a;
    }
  }

  /** The upper-case form of one character; only ASCII letters change. */
  function UpperChar(c: char): char {
    if 'a' <= c <= 'z' then (c as int - 32) as char else c
  }

  /** `to_uppercase`, restricted to the ASCII letters. */
  function ToUpper(s: string): (r: string)
    ensures |r| == |s|
    ensures forall i :: 0 <= i < |s| ==> !('a' <= r[i] <= 'z')
    ensures forall i :: 0 <= i < |s| && !('a' <= s[i] <= 'z') ==> r[i] == s[i]
    ensures forall i :: 0 <= i < |s| && 'a' <= s[i] <= 'z' ==> r[i] as int == s[i] as int - 32
  {
    seq(|s|, i requires 0 <= i < |s| => UpperChar(s[i]))
  }

  /** Upper-casing twice is upper-casing once. */
  lemma ToUpperIdempotent(s: string)
    ensures ToUpper(ToUpper(s)) == ToUpper(s)
  {
  }

  predicate IsDigit(c: char) {
    '0' <= c <= '9'
  }

  function DigitChar(d: nat): (c: char)
    requires d < 10
    ensures IsDigit(c) && c as int - '0' as int == d
  {
    ('0' as int + d) as char
  }

  /** The decimal text of `n`, as `{}` formats an unsigned integer: digits
      only, and no leading zero. */
  function Decimal(n: nat): (s: string)
    ensures |s| >= 1
    ensures forall i :: 0 <= i < |s| ==> IsDigit(s[i])
    ensures n > 0 ==> s[0] != '0'
    ensures n < 10 <==> |s| == 1
    decreases n
  {
    if n < 10 then [DigitChar(n)] else Decimal(n / 10) + [DigitChar(n % 10)]
  }

  /** Ten times a positive number is written with one more `0`. */
  lemma DecimalTimesTen(n: nat)
    requires n > 0
    ensures Decimal(10 * n) == Decimal(n) + "0"
  {
    assert (10 * n) / 10 == n && (10 * n) % 10 == 0;
  }

  /** The number a string of decimal digits denotes. */
  function DigitsValue(s: string): nat
    requires forall i :: 0 <= i < |s| ==> IsDigit(s[i])
    decreases |s|
  {
    if |s| == 0 then 0
    else
      assert IsDigit(s[|s| - 1]);
      DigitsValue(s[..|s| - 1]) * 10 + (s[|s| - 1] as int - '0' as int)
  }

  /** Reading back the decimal text of `n` gives `n`. */
  lemma {:induction false} DecimalRoundTrip(n: nat)
    ensures DigitsValue(Decimal(n)) == n
    decreases n
  {
    if n >= 10 {
      DecimalRoundTrip(n / 10);
      var s := Decimal(n);
      assert s[..|s| - 1] == Decimal(n / 10);
    }
  }

  /** Equal decimal texts denote equal numbers. */
  lemma DecimalInjective(m: nat, n: nat)
    requires Decimal(m) == Decimal(n)
    ensures m == n
  {
    DecimalRoundTrip(m);
    DecimalRoundTrip(n);
  }

  /** `s.replacen([from], to, 1)`: the first occurrence of `from` replaced by
      `to`, the rest of the string left as it is. */
  function ReplaceFirst(s: string, from: char, to: string): string
    decreases |s|
  {
    if |s| == 0 then ""
    else if s[0] == from then to + s[1..]
    else [s[0]] + ReplaceFirst(s[1..], from, to)
  }

  /** Only the first occurrence changes, wherever it stands: with `a` free of
      `from`, `a + [from] + b` becomes `a + to + b`, whatever `b` holds. */
  lemma {:induction false} ReplaceFirstAt(a: string, b: string, from: char, to: string)
    requires from !in a
    ensures ReplaceFirst(a + [from] + b, from, to) == a + to + b
    decreases |a|
  {
    var s := a + [from] + b;
    if |a| == 0 {
      assert s[1..] == b;
    } else {
      assert s[1..] == a[1..] + [from] + b;
      assert from !in a[1..] by {
        forall i | 0 <= i < |a[1..]| ensures a[1..][i] != from { assert a[1..][i] == a[i + 1]; }
      }
      ReplaceFirstAt(a[1..], b, from, to);
      assert [a[0]] + a[1..] == a;
    }
  }

  /** A string without `from` is left unchanged. */
  lemma {:induction false} ReplaceFirstAbsent(s: string, from: char, to: string)
    requires from !in s
    ensures ReplaceFirst(s, from, to) == s
    decreases |s|
  {
    if |s| > 0 {
      assert from !in s[1..] by {
        forall i | 0 <= i < |s[1..]| ensures s[1..][i] != from { assert s[1..][i] == s[i + 1]; }
      }
      ReplaceFirstAbsent(s[1..], from, to);
      assert [s[0]] + s[1..] == s;
    }
  }

  /** Replacing a character by itself changes nothing. */
  lemma {:induction false} ReplaceFirstBySelf(s: string, c: char)
    ensures ReplaceFirst(s, c, [c]) == s
    decreases |s|
  {
    if |s| > 0 {
      if s[0] != c {
        ReplaceFirstBySelf(s[1..], c);
      }
      assert [s[0]] + s[1..] == s;
    }
  }

  /** The position of the first `c` in `s`. */
  function FirstIndexOf(s: string, c: char): (i: nat)
    requires c in s
    ensures i < |s| && s[i] == c && c !in s[..i]
    decreases |s|
  {
    if s[0] == c then 0
    else
      var j := FirstIndexOf(s[1..], c);
      assert s[..j + 1] == [s[0]] + s[1..][..j];
      j + 1
  }

  /** A string holding `sep` splits into at least two pieces. */
  lemma SplitHasSeparator(s: string, sep: char)
    requires sep in s
    ensures |Split(s, sep)| >= 2
  {
    FirstSeparator(s, sep);
  }

  /** The split of a string with a separator starts with the text before its
      first separator. */
  lemma FirstSeparator(s: string, sep: char)
    requires sep in s
    ensures exists i :: 0 <= i < |s| && s[i] == sep && sep !in s[..i] && Split(s, sep) == [s[..i]] + Split(s[i + 1..], sep)
  {
    var i := FirstIndexOf(s, sep);
    assert s == s[..i] + [sep] + s[i + 1..];
    SplitAtFirst(s[..i], s[i + 1..], sep);
  }
}
