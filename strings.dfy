/** Python string operations the two scripts rely on: `str.split`, `os.path.basename`
    and the decimal rendering of an `int` that `str.format` performs. Strings are
    sequences of characters; Python's own string type is modelled as `string`. */
module Strings {

  /** The characters Python 2's argument-less `str.split()` treats as whitespace. */
  const Whitespace: set<char> := {' ', '\t', '\n', '\r', '\U{000B}', '\U{000C}'}

  /** No character of `s` is one of `seps`. */
  predicate Avoids(s: string, seps: set<char>)
  {
    forall i :: 0 <= i < |s| ==> s[i] !in seps
  }

  /** `t` occurs in `s` as a contiguous block. */
  ghost predicate IsInfix(t: string, s: string)
  {
    exists k :: 0 <= k <= |s| && t <= s[k..]
  }

  lemma InfixOfConcat(a: string, t: string, b: string)
    ensures IsInfix(t, a + t + b)
  {
    assert (a + t + b)[|a|..] == t + b;
  }

  /** A block of `s` is still a block of `s` with text appended. */
  lemma InfixAppend(t: string, s: string, b: string)
    requires IsInfix(t, s)
    ensures IsInfix(t, s + b)
  {
    var k :| 0 <= k <= |s| && t <= s[k..];
    assert (s + b)[k..] == s[k..] + b;
  }

  /** A block of `s` is still a block of `s` with text prepended. */
  lemma InfixPrepend(t: string, a: string, s: string)
    requires IsInfix(t, s)
    ensures IsInfix(t, a + s)
  {
    var k :| 0 <= k <= |s| && t <= s[k..];
    assert (a + s)[|a| + k..] == s[k..];
  }

  lemma Assoc(a: string, b: string, c: string)
    ensures a + (b + c) == (a + b) + c
  {
  }

  // ---------------------------------------------------------------------------
  // Splitting at separator characters

  /** Cuts `s` at every character in `seps`, keeping empty pieces: for a single
      separator this is Python's `s.split(sep)`, which returns `[""]` for "". */
  function SplitOn(s: string, seps: set<char>): (parts: seq<string>)
    ensures |parts| >= 1
  {
    if s == [] then [""]
    else
      var rest := SplitOn(s[1..], seps);
      if s[0] in seps then [""] + rest
      else [[s[0]] + rest[0]] + rest[1..]
  }

  /** No piece contains a separator. */
  lemma {:induction false} SplitAvoids(s: string, seps: set<char>)
    ensures forall i :: 0 <= i < |SplitOn(s, seps)| ==> Avoids(SplitOn(s, seps)[i], seps)
  {
    if s != [] {
      SplitAvoids(s[1..], seps);
      var rest := SplitOn(s[1..], seps);
      if s[0] !in seps {
        var first := [s[0]] + rest[0];
        assert Avoids(first, seps) by {
          forall j | 0 <= j < |first| ensures first[j] !in seps {
            if j > 0 { assert first[j] == rest[0][j - 1]; }
          }
        }
      }
    }
  }

  /** Python's `sep.join(parts)` for a one-character separator. */
  function Join(parts: seq<string>, sep: char): string
  {
    if parts == [] then ""
    else if |parts| == 1 then parts[0]
    else parts[0] + [sep] + Join(parts[1..], sep)
  }

  /** The pieces laid end to end, with nothing between them. */
  function Concat(parts: seq<string>): string
  {
    if parts == [] then "" else parts[0] + Concat(parts[1..])
  }

  /** `s` with every character of `seps` deleted. */
  function Without(s: string, seps: set<char>): (r: string)
    ensures Avoids(r, seps)
    ensures |r| <= |s|
  {
    if s == [] then ""
    else if s[0] in seps then Without(s[1..], seps)
    else [s[0]] + Without(s[1..], seps)
  }

  /** Splitting at one character and joining with it again gives back the text. */
  lemma {:induction false} JoinSplit(s: string, sep: char)
    ensures Join(SplitOn(s, {sep}), sep) == s
  {
    if s != [] {
      var rest := SplitOn(s[1..], {sep});
      JoinSplit(s[1..], sep);
      if s[0] == sep {
        assert SplitOn(s, {sep}) == [""] + rest;
        assert ([""] + rest)[1..] == rest;
        assert [s[0]] + s[1..] == s;
      } else {
        var head := [[s[0]] + rest[0]] + rest[1..];
        assert SplitOn(s, {sep}) == head;
        if |rest| == 1 {
          assert [s[0]] + s[1..] == s;
        } else {
          assert head[1..] == rest[1..];
          assert Join(rest, sep) == rest[0] + [sep] + Join(rest[1..], sep);
          assert [s[0]] + s[1..] == s;
        }
      }
    }
  }

  /** Joining separator-free pieces and splitting again gives back the pieces. */
  lemma {:induction false} SplitJoin(parts: seq<string>, sep: char)
    requires |parts| >= 1
    requires forall i :: 0 <= i < |parts| ==> Avoids(parts[i], {sep})
    ensures SplitOn(Join(parts, sep), {sep}) == parts
  {
    if |parts| == 1 {
      SplitAvoiding(parts[0], {sep});
    } else {
      SplitJoin(parts[1..], sep);
      SplitAfter(parts[0], sep, Join(parts[1..], sep), {sep});
      assert [parts[0]] + parts[1..] == parts;
    }
  }

  /** A text without separators is one piece. */
  lemma {:induction false} SplitAvoiding(s: string, seps: set<char>)
    requires Avoids(s, seps)
    ensures SplitOn(s, seps) == [s]
  {
    if s != [] {
      SplitAvoiding(s[1..], seps);
      assert [s[0]] + s[1..] == s;
    }
  }

  /** The first separator closes the first piece. */
  lemma {:induction false} SplitAfter(a: string, c: char, b: string, seps: set<char>)
    requires Avoids(a, seps) && c in seps
    ensures SplitOn(a + [c] + b, seps) == [a] + SplitOn(b, seps)
  {
    if a == [] {
      assert (a + [c] + b)[1..] == b;
    } else {
      SplitAfter(a[1..], c, b, seps);
      assert (a + [c] + b)[1..] == a[1..] + [c] + b;
      assert [a[0]] + a[1..] == a;
    }
  }

  /** The pieces hold exactly the non-separator characters of the text, in order. */
  lemma {:induction false} ConcatSplit(s: string, seps: set<char>)
    ensures Concat(SplitOn(s, seps)) == Without(s, seps)
  {
    if s != [] {
      var rest := SplitOn(s[1..], seps);
      ConcatSplit(s[1..], seps);
      if s[0] in seps {
        assert ([""] + rest)[1..] == rest;
      } else {
        var parts := [[s[0]] + rest[0]] + rest[1..];
        assert parts[1..] == rest[1..];
        assert Concat(rest) == rest[0] + Concat(rest[1..]);
      }
    }
  }

  // ---------------------------------------------------------------------------
  // Dropping empty pieces

  /** The pieces that are not empty, in their original order: Python's
      `[l for l in parts if l != '']`. */
  function NonEmpty(parts: seq<string>): (kept: seq<string>)
    ensures |kept| <= |parts|
  {
    if parts == [] then []
    else if parts[0] == "" then NonEmpty(parts[1..])
    else [parts[0]] + NonEmpty(parts[1..])
  }

  /** The filter works piece by piece: the kept pieces of a juxtaposition are the
      kept pieces of each part, in order. */
  lemma {:induction false} NonEmptyAppend(a: seq<string>, b: seq<string>)
    ensures NonEmpty(a + b) == NonEmpty(a) + NonEmpty(b)
  {
    if a != [] {
      NonEmptyAppend(a[1..], b);
      assert (a + b)[1..] == a[1..] + b;
      assert (a + b)[0] == a[0];
      if a[0] == "" {
        assert NonEmpty(a + b) == NonEmpty(a[1..] + b);
      } else {
        assert NonEmpty(a + b) == [a[0]] + NonEmpty(a[1..] + b);
      }
    } else {
      assert a + b == b;
    }
  }

  /** A piece is kept exactly when it is one of the pieces and is not empty. */
  lemma {:induction false} NonEmptyMembers(parts: seq<string>, x: string)
    ensures x in NonEmpty(parts) <==> x in parts && x != ""
  {
    if parts != [] {
      NonEmptyMembers(parts[1..], x);
      assert parts == [parts[0]] + parts[1..];
    }
  }

  /** Dropping empty pieces loses no character. */
  lemma {:induction false} ConcatNonEmpty(parts: seq<string>)
    ensures Concat(NonEmpty(parts)) == Concat(parts)
  {
    if parts != [] {
      ConcatNonEmpty(parts[1..]);
      if parts[0] != "" {
        assert ([parts[0]] + NonEmpty(parts[1..]))[1..] == NonEmpty(parts[1..]);
      }
    }
  }

  /** Every kept piece is one of the pieces, and is not empty. */
  lemma NonEmptyKept(parts: seq<string>)
    ensures forall i :: 0 <= i < |NonEmpty(parts)| ==> NonEmpty(parts)[i] != "" && NonEmpty(parts)[i] in parts
  {
    forall i | 0 <= i < |NonEmpty(parts)|
      ensures NonEmpty(parts)[i] != "" && NonEmpty(parts)[i] in parts
    {
      NonEmptyMembers(parts, NonEmpty(parts)[i]);
    }
  }

  /** Python's `s.split()` on ASCII text: the maximal runs of non-whitespace. */
  function Words(s: string): seq<string>
  {
    NonEmpty(SplitOn(s, Whitespace))
  }

  /** Every word is non-empty and holds no whitespace. */
  lemma WordsShape(s: string)
    ensures forall i :: 0 <= i < |Words(s)| ==> Words(s)[i] != "" && Avoids(Words(s)[i], Whitespace)
  {
    var parts := SplitOn(s, Whitespace);
    SplitAvoids(s, Whitespace);
    NonEmptyKept(parts);
    forall i | 0 <= i < |Words(s)|
      ensures Avoids(Words(s)[i], Whitespace)
    {
      var k :| 0 <= k < |parts| && parts[k] == Words(s)[i];
    }
  }

  /** Two words separated by one blank split into exactly those words. */
  lemma TwoWords(a: string, b: string)
    requires a != "" && b != ""
    requires Avoids(a, Whitespace) && Avoids(b, Whitespace)
    ensures Words(a + " " + b) == [a, b]
  {
    assert a + " " + b == a + [' '] + b;
    SplitAfter(a, ' ', b, Whitespace);
    SplitAvoiding(b, Whitespace);
    assert NonEmpty([a, b]) == [a] + NonEmpty([b]);
  }

  /** Text made only of printable characters other than the blank holds no whitespace. */
  lemma PrintableAvoids(s: string)
    requires forall i :: 0 <= i < |s| ==> ' ' < s[i]
    ensures Avoids(s, Whitespace)
  {
  }

  /** A text of two printable words separated by one blank splits into those words. */
  lemma TwoPrintableWords(s: string, a: string, b: string)
    requires s == a + " " + b && a != "" && b != ""
    requires forall i :: 0 <= i < |a| ==> ' ' < a[i]
    requires forall i :: 0 <= i < |b| ==> ' ' < b[i]
    ensures Words(s) == [a, b]
  {
    PrintableAvoids(a);
    PrintableAvoids(b);
    TwoWords(a, b);
  }

  /** A word without whitespace splits into itself. */
  lemma OneWord(a: string)
    requires a != "" && Avoids(a, Whitespace)
    ensures Words(a) == [a]
  {
    SplitAvoiding(a, Whitespace);
  }

  // ---------------------------------------------------------------------------
  // os.path.basename

  /** `os.path.basename(p)` on POSIX: what follows the last '/', or all of `p`. */
  function Basename(p: string): string
  {
    if p == [] || p[|p| - 1] == '/' then ""
    else Basename(p[..|p| - 1]) + [p[|p| - 1]]
  }

  /** The base name holds no '/', is a suffix of the path, and is either the whole
      path or preceded in it by a '/'. */
  lemma {:induction false} BasenameSuffix(p: string)
    ensures var b := Basename(p);
      '/' !in b && |b| <= |p| && b == p[|p| - |b|..] && (|b| < |p| ==> p[|p| - |b| - 1] == '/')
  {
    if p != [] && p[|p| - 1] != '/' {
      var init, c := p[..|p| - 1], p[|p| - 1];
      BasenameSuffix(init);
      var b0 := Basename(init);
      assert Basename(p) == b0 + [c];
      assert '/' !in b0 + [c] by {
        assert forall x :: x in b0 + [c] ==> x in b0 || x == c;
      }
      assert p[|p| - |b0| - 1..] == init[|init| - |b0|..] + [c];
      if |b0| < |init| {
        assert p[|p| - |b0| - 2] == init[|init| - |b0| - 1];
      }
    }
  }

  /** The name after the last directory separator is the base name. */
  lemma {:induction false} BasenameAfterSlash(dir: string, name: string)
    requires '/' !in name
    ensures Basename(dir + "/" + name) == name
  {
    var p := dir + "/" + name;
    if name != "" {
      var init := name[..|name| - 1];
      assert p[..|p| - 1] == dir + "/" + init;
      assert name[|name| - 1] in name;
      BasenameAfterSlash(dir, init);
      assert init + [name[|name| - 1]] == name;
    }
  }

  // ---------------------------------------------------------------------------
  // Decimal rendering of integers (what `'{x}'.format(x=n)` produces for an int)

  predicate IsDigit(c: char)
  {
    '0' <= c <= '9'
  }

  function DigitChar(d: nat): (c: char)
    requires d < 10
    ensures IsDigit(c)
  {
    ('0' as int + d) as char
  }

  function DigitValue(c: char): (d: nat)
    requires IsDigit(c)
    ensures d < 10 && DigitChar(d) == c
  {
    (c as int - '0' as int) as nat
  }

  /** `str(n)` for a non-negative `n`: digits only, no leading zero. */
  function NatToDecimal(n: nat): (s: string)
    ensures |s| >= 1 && forall i :: 0 <= i < |s| ==> IsDigit(s[i])
    ensures s[0] == '0' ==> n == 0
    decreases n
  {
    if n < 10 then [DigitChar(n)]
    else NatToDecimal(n / 10) + [DigitChar(n % 10)]
  }

  /** The value a string of digits denotes. */
  function DecimalValue(s: string): nat
    requires forall i :: 0 <= i < |s| ==> IsDigit(s[i])
  {
    if s == [] then 0
    else DecimalValue(s[..|s| - 1]) * 10 + DigitValue(s[|s| - 1])
  }

  /** `str(n)` for any Python `int`: a minus sign before the digits of a negative number. */
  function IntToDecimal(n: int): (s: string)
    ensures |s| >= 1
    ensures n < 0 <==> s[0] == '-'
  {
    if n < 0 then "-" + NatToDecimal(-n) else NatToDecimal(n)
  }

  /** The value of an optionally signed string of digits. */
  function ParseInt(s: string): int
    requires |s| >= 1
    requires s[0] == '-' ==> |s| >= 2
    requires forall i :: (if s[0] == '-' then 1 else 0) <= i < |s| ==> IsDigit(s[i])
  {
    if s[0] == '-' then -(DecimalValue(s[1..]) as int) else DecimalValue(s)
  }

  /** Reading the digits back gives the number. */
  lemma {:induction false} NatDecimalRoundTrip(n: nat)
    ensures DecimalValue(NatToDecimal(n)) == n
    decreases n
  {
    if n >= 10 {
      NatDecimalRoundTrip(n / 10);
      var s := NatToDecimal(n);
      assert s[..|s| - 1] == NatToDecimal(n / 10);
    }
  }

  /** Reading the rendering of any integer back gives the integer. */
  lemma IntDecimalRoundTrip(n: int)
    ensures var s := IntToDecimal(n);
      (s[0] == '-' ==> |s| >= 2) &&
      (forall i :: (if s[0] == '-' then 1 else 0) <= i < |s| ==> IsDigit(s[i])) &&
      ParseInt(s) == n
  {
    var s := IntToDecimal(n);
    if n < 0 {
      NatDecimalRoundTrip(-n);
      assert s[1..] == NatToDecimal(-n);
    } else {
      NatDecimalRoundTrip(n);
    }
  }
}
