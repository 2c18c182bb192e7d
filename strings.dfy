/**
 * The JavaScript string built-ins the music core relies on, on `seq<char>`:
 * `toLowerCase`, `split`, `join`, `includes`, `endsWith` and `Number(...)`.
 */
module Strings {
  import opened Wrappers

  /** `toLowerCase` on one character; only the ASCII letters A-Z are mapped. */
  function LowerChar(c: char): char
  {
    if 'A' <= c <= 'Z' then (c as int + 32) as char else c
  }

  /** `s.toLowerCase()`, character by character. */
  function Lower(s: string): string
  {
    seq(|s|, i requires 0 <= i < |s| => LowerChar(s[i]))
  }

  /** `hay.includes(needle)`: `needle` occurs at some position of `hay`. */
  predicate Contains(hay: string, needle: string)
    decreases |hay|
  {
    needle <= hay || (hay != [] && Contains(hay[1..], needle))
  }

  /** `s.endsWith(suffix)`. */
  predicate EndsWith(s: string, suffix: string)
  {
    |suffix| <= |s| && s[|s| - |suffix|..] == suffix
  }

  /**
   * `s.split(sep)`: the pieces between the separators, in order. There is
   * always at least one piece, and the first piece is a prefix of `s`.
   */
  function Split(s: string, sep: char): (pieces: seq<string>)
    ensures |pieces| >= 1
    ensures pieces[0] <= s
    decreases |s|
  {
    if s == [] then [""]
    else
      var rest := Split(s[1..], sep);
      if s[0] == sep then [""] + rest else [[s[0]] + rest[0]] + rest[1..]
  }

  /** `pieces.join(sep)`. */
  function Join(pieces: seq<string>, sep: char): string
    decreases |pieces|
  {
    if |pieces| == 0 then ""
    else if |pieces| == 1 then pieces[0]
    else pieces[0] + [sep] + Join(pieces[1..], sep)
  }

  /** Joining what `split` cut gives the original string back. */
  lemma {:induction false} JoinSplit(s: string, sep: char)
    ensures Join(Split(s, sep), sep) == s
    decreases |s|
  {
    if s != [] {
      var rest := Split(s[1..], sep);
      JoinSplit(s[1..], sep);
      if s[0] == sep {
        assert ([""] + rest)[1..] == rest;
      } else if |rest| > 1 {
        assert ([[s[0]] + rest[0]] + rest[1..])[1..] == rest[1..];
        assert s == [s[0]] + s[1..];
      } else {
        assert s == [s[0]] + s[1..];
      }
    }
  }

  /** Every piece that `split` produces occurs in the string it was cut from. */
  lemma {:induction false} SplitPiecesOccur(s: string, sep: char)
    ensures forall k :: 0 <= k < |Split(s, sep)| ==> Contains(s, Split(s, sep)[k])
    decreases |s|
  {
    if s != [] {
      var rest := Split(s[1..], sep);
      SplitPiecesOccur(s[1..], sep);
      var pieces := Split(s, sep);
      forall k | 0 <= k < |pieces|
        ensures Contains(s, pieces[k])
      {
        if k == 0 {
          assert pieces[0] <= s;
        } else {
          assert Contains(s[1..], pieces[k]);
        }
      }
    }
  }

  /** Appending a piece extends the joined text by the separator and the piece. */
  lemma {:induction false} JoinAppend(pieces: seq<string>, x: string, sep: char)
    requires |pieces| >= 1
    ensures Join(pieces + [x], sep) == Join(pieces, sep) + [sep] + x
    decreases |pieces|
  {
    if |pieces| > 1 {
      JoinAppend(pieces[1..], x, sep);
      assert (pieces + [x])[1..] == pieces[1..] + [x];
    } else {
      assert (pieces + [x])[1..] == [x];
    }
  }

  /** Joining a shorter prefix of a list gives a prefix of the longer one's text. */
  lemma {:induction false} JoinPrefixExtends(pieces: seq<string>, j: nat, k: nat, sep: char)
    requires j <= k <= |pieces|
    ensures Join(pieces[..j], sep) <= Join(pieces[..k], sep)
    decreases k - j
  {
    if j < k {
      JoinPrefixExtends(pieces, j, k - 1, sep);
      assert pieces[..k] == pieces[..k - 1] + [pieces[k - 1]];
      if k - 1 >= 1 {
        JoinAppend(pieces[..k - 1], pieces[k - 1], sep);
      }
    }
  }

  /** `split` cuts at every separator: no piece contains one. */
  lemma {:induction false} SplitPiecesHaveNoSeparator(s: string, sep: char)
    ensures forall k :: 0 <= k < |Split(s, sep)| ==> sep !in Split(s, sep)[k]
    decreases |s|
  {
    if s != [] {
      var rest := Split(s[1..], sep);
      SplitPiecesHaveNoSeparator(s[1..], sep);
      var pieces := Split(s, sep);
      if s[0] == sep {
        assert pieces == [""] + rest;
      } else {
        assert pieces == [[s[0]] + rest[0]] + rest[1..];
        assert sep !in rest[0];
      }
    }
  }

  /**
   * JavaScript's `length`: the number of UTF-16 code units, so a
   * character outside the Basic Multilingual Plane counts twice.
   */
  function Utf16Length(s: string): (n: nat)
    ensures n >= |s|
    decreases |s|
  {
    if s == [] then 0
    else (if s[0] as int > 0xFFFF then 2 else 1) + Utf16Length(s[1..])
  }

  /** The length of a concatenation is the sum of the lengths. */
  lemma {:induction false} Utf16LengthAppend(a: string, b: string)
    ensures Utf16Length(a + b) == Utf16Length(a) + Utf16Length(b)
    decreases |a|
  {
    if a != [] {
      assert (a + b)[0] == a[0];
      assert (a + b)[1..] == a[1..] + b;
      Utf16LengthAppend(a[1..], b);
    } else {
      assert a + b == b;
    }
  }

  /** A prefix is never longer. */
  lemma Utf16LengthPrefix(a: string, b: string)
    requires a <= b
    ensures Utf16Length(a) <= Utf16Length(b)
  {
    assert b == a + b[|a|..];
    Utf16LengthAppend(a, b[|a|..]);
  }

  predicate IsDigit(c: char)
  {
    '0' <= c <= '9'
  }

  /** The value of a string of decimal digits; the empty string reads as 0. */
  function DigitsValue(s: string): nat
    requires forall i :: 0 <= i < |s| ==> IsDigit(s[i])
    decreases |s|
  {
    if s == [] then 0
    else
      assert IsDigit(s[|s| - 1]);
      DigitsValue(s[..|s| - 1]) * 10 + (s[|s| - 1] as int - '0' as int)
  }

  /** `s` without leading and trailing spaces. */
  function TrimSpaces(s: string): (t: string)
    ensures |t| <= |s|
    ensures forall i :: 0 <= i < |s| && s[i] != ' ' ==> s[i] in t
    decreases |s|
  {
    if s == [] then s
    else if s[0] == ' ' then TrimSpaces(s[1..])
    else if s[|s| - 1] == ' ' then TrimSpaces(s[..|s| - 1])
    else s
  }

  /**
   * `Number(s)` on the strings this model reads as numbers: after trimming
   * spaces, a run of decimal digits (possibly empty, which reads as 0).
   * Everything else reads as NaN, shown as `None`.
   */
  function NumberOf(s: string): (r: Option<nat>)
    ensures s == "" ==> r == Some(0)
    ensures (exists i :: 0 <= i < |s| && s[i] != ' ' && !IsDigit(s[i])) ==> r == None
  {
    var t := TrimSpaces(s);
    if forall i :: 0 <= i < |t| ==> IsDigit(t[i]) then Some(DigitsValue(t)) else None
  }

  /** The decimal notation of `n`, without leading zeros. */
  function Decimal(n: nat): (d: string)
    ensures |d| >= 1 && forall i :: 0 <= i < |d| ==> IsDigit(d[i])
  {
    var digit := ('0' as int + n % 10) as char;
    if n < 10 then [digit] else Decimal(n / 10) + [digit]
  }

  lemma {:induction false} DigitsValueDecimal(n: nat)
    ensures DigitsValue(Decimal(n)) == n
  {
    var d := Decimal(n);
    if n >= 10 {
      DigitsValueDecimal(n / 10);
      assert d[..|d| - 1] == Decimal(n / 10);
    }
  }

  /** `Number` reads the decimal notation of `n`, with or without surrounding spaces, as `n`. */
  lemma NumberOfDecimal(n: nat, pad: nat)
    ensures NumberOf(Decimal(n)) == Some(n)
    ensures NumberOf(seq(pad, _ => ' ') + Decimal(n) + seq(pad, _ => ' ')) == Some(n)
  {
    DigitsValueDecimal(n);
    TrimPadding(Decimal(n), pad);
  }

  lemma {:induction false} TrimPadding(d: string, pad: nat)
    requires |d| >= 1 && d[0] != ' ' && d[|d| - 1] != ' '
    ensures TrimSpaces(d) == d
    ensures TrimSpaces(seq(pad, _ => ' ') + d + seq(pad, _ => ' ')) == d
  {
    TrimPadded(d, 0, 0);
    assert seq(0, _ => ' ') + d + seq(0, _ => ' ') == d;
    TrimPadded(d, pad, pad);
  }

  /** Trimming removes `a` leading and `b` trailing spaces around a text that neither starts nor ends with one. */
  lemma {:induction false} TrimPadded(d: string, a: nat, b: nat)
    requires |d| >= 1 && d[0] != ' ' && d[|d| - 1] != ' '
    ensures TrimSpaces(seq(a, _ => ' ') + d + seq(b, _ => ' ')) == d
    decreases a, b
  {
    var s := seq(a, _ => ' ') + d + seq(b, _ => ' ');
    if a > 0 {
      assert s[0] == ' ';
      assert s[1..] == seq(a - 1, _ => ' ') + d + seq(b, _ => ' ');
      TrimPadded(d, a - 1, b);
    } else if b > 0 {
      assert s == d + seq(b, _ => ' ');
      assert s[0] == d[0] && s[|s| - 1] == ' ';
      assert s[..|s| - 1] == seq(0, _ => ' ') + d + seq(b - 1, _ => ' ');
      TrimPadded(d, 0, b - 1);
    } else {
      assert s == d;
    }
  }
}
