/**
 * String helpers shared by the model: Python's non-overlapping substring
 * scan (`str.count`, `str.replace(p, '')`), decimal rendering of integers
 * (`f'{n}'`, `str(n)`), ASCII upper-casing and `' '.join`.
 */
module Text {
  import opened Outcomes

  /** `p` occurs in `s` at position `i`. */
  predicate OccursAt(s: string, p: string, i: int)
  {
    0 <= i && i + |p| <= |s| && s[i..i + |p|] == p
  }

  /**
   * `s.count(p)` for a non-empty pattern: occurrences found by a left-to-right
   * scan that resumes after each match.
   */
  function CountOcc(s: string, p: string): nat
    requires |p| > 0
    decreases |s|
  {
    if |s| < |p| then 0
    else if s[..|p|] == p then 1 + CountOcc(s[|p|..], p)
    else CountOcc(s[1..], p)
  }

  /** `s.replace(p, '')`: the same scan, dropping every match it finds. */
  function RemoveAll(s: string, p: string): string
    requires |p| > 0
    decreases |s|
  {
    if |s| < |p| then s
    else if s[..|p|] == p then RemoveAll(s[|p|..], p)
    else [s[0]] + RemoveAll(s[1..], p)
  }

  /** The scan finds nothing exactly when the pattern occurs nowhere. */
  lemma {:induction false} CountOccZeroIff(s: string, p: string)
    requires |p| > 0
    ensures CountOcc(s, p) == 0 <==> forall i :: !OccursAt(s, p, i)
    decreases |s|
  {
    if |s| < |p| {
    } else if s[..|p|] == p {
      assert OccursAt(s, p, 0);
    } else {
      CountOccZeroIff(s[1..], p);
      if CountOcc(s, p) == 0 {
        forall i ensures !OccursAt(s, p, i) {
          if OccursAt(s, p, i) && i > 0 {
            assert s[1..][i - 1..i - 1 + |p|] == s[i..i + |p|];
            assert OccursAt(s[1..], p, i - 1);
          }
        }
      } else {
        var i :| OccursAt(s[1..], p, i);
        assert s[1..][i..i + |p|] == s[i + 1..i + 1 + |p|];
        assert OccursAt(s, p, i + 1);
      }
    }
  }

  /** A prefix that never holds the pattern's first character adds nothing to the count. */
  lemma {:induction false} CountOccSkip(a: string, b: string, p: string)
    requires |p| > 0 && p[0] !in a
    ensures CountOcc(a + b, p) == CountOcc(b, p)
    decreases |a|
  {
    if |a| == 0 {
      assert a + b == b;
    } else if |a + b| >= |p| {
      assert (a + b)[..|p|][0] == a[0];
      assert (a + b)[1..] == a[1..] + b;
      CountOccSkip(a[1..], b, p);
    }
  }

  /** A text without the pattern's first character holds no occurrence. */
  lemma CountOccAbsent(s: string, p: string)
    requires |p| > 0 && p[0] !in s
    ensures CountOcc(s, p) == 0
  {
    CountOccSkip(s, "", p);
    assert s + "" == s;
  }

  /** A text that starts with the pattern counts one more than what follows it. */
  lemma CountOccLead(p: string, c: string)
    requires |p| > 0
    ensures CountOcc(p + c, p) == 1 + CountOcc(c, p)
  {
    assert (p + c)[..|p|] == p;
    assert (p + c)[|p|..] == c;
  }

  /** Every removal shortens the string by one pattern length. */
  lemma {:induction false} RemoveAllLength(s: string, p: string)
    requires |p| > 0
    ensures |RemoveAll(s, p)| == |s| - |p| * CountOcc(s, p)
    decreases |s|
  {
    if |s| < |p| {
    } else if s[..|p|] == p {
      RemoveAllLength(s[|p|..], p);
      assert |p| * (1 + CountOcc(s[|p|..], p)) == |p| + |p| * CountOcc(s[|p|..], p);
    } else {
      RemoveAllLength(s[1..], p);
    }
  }

  /** A string in which the pattern never occurs is left unchanged. */
  lemma {:induction false} RemoveAllAbsent(s: string, p: string)
    requires |p| > 0
    requires forall i :: !OccursAt(s, p, i)
    ensures RemoveAll(s, p) == s
    decreases |s|
  {
    if |s| < |p| {
    } else {
      assert !OccursAt(s, p, 0);
      assert s[..|p|] != p;
      forall i ensures !OccursAt(s[1..], p, i) {
        if OccursAt(s[1..], p, i) {
          assert s[1..][i..i + |p|] == s[i + 1..i + 1 + |p|];
          assert OccursAt(s, p, i + 1);
        }
      }
      RemoveAllAbsent(s[1..], p);
      assert [s[0]] + s[1..] == s;
    }
  }

  /** Removing a one-character pattern works piece by piece. */
  lemma {:induction false} RemoveAllConcat(a: string, b: string, p: string)
    requires |p| == 1
    ensures RemoveAll(a + b, p) == RemoveAll(a, p) + RemoveAll(b, p)
    decreases |a|
  {
    if |a| == 0 {
      assert a + b == b;
    } else {
      var c := a[0];
      RemoveAllConcat(a[1..], b, p);
      assert (a + b)[1..] == a[1..] + b;
      assert (a + b)[..1] == a[..1] == [c];
      if [c] != p {
        var x, y := RemoveAll(a[1..], p), RemoveAll(b, p);
        assert [c] + (x + y) == ([c] + x) + y;
      }
    }
  }

  /** Removing a one-character pattern keeps a string that lacks it. */
  lemma {:induction false} RemoveAllMissing(s: string, c: char)
    requires c !in s
    ensures RemoveAll(s, [c]) == s
    decreases |s|
  {
    if |s| > 0 {
      RemoveAllMissing(s[1..], c);
      assert s[..1] != [c] by { assert s[..1][0] == s[0]; }
      assert [s[0]] + s[1..] == s;
    }
  }

  // ---------------------------------------------------------------------
  // Decimal rendering

  predicate IsDigit(c: char)
  {
    '0' <= c <= '9'
  }

  function DigitChar(d: nat): (c: char)
    requires d < 10
    ensures IsDigit(c)
  {
    ['0', '1', '2', '3', '4', '5', '6', '7', '8', '9'][d]
  }

  function DigitValue(c: char): (d: nat)
    requires IsDigit(c)
    ensures d < 10
  {
    (c as int - '0' as int) as nat
  }

  /** `str(n)` for a natural number: no leading zeros, at least one digit. */
  function NatToString(n: nat): (s: string)
    ensures |s| > 0
    ensures forall i :: 0 <= i < |s| ==> IsDigit(s[i])
    ensures |s| > 1 ==> s[0] != '0'
  {
    if n < 10 then [DigitChar(n)] else NatToString(n / 10) + [DigitChar(n % 10)]
  }

  /** Reads a non-empty run of digits back as a number. */
  function ParseNat(s: string): nat
    requires forall i :: 0 <= i < |s| ==> IsDigit(s[i])
  {
    if |s| == 0 then 0 else 10 * ParseNat(s[..|s| - 1]) + DigitValue(s[|s| - 1])
  }

  lemma {:induction false} NatToStringRoundTrip(n: nat)
    ensures ParseNat(NatToString(n)) == n
  {
    var s := NatToString(n);
    if n < 10 {
      assert DigitValue(DigitChar(n)) == n;
    } else {
      NatToStringRoundTrip(n / 10);
      assert s[..|s| - 1] == NatToString(n / 10);
      assert DigitValue(DigitChar(n % 10)) == n % 10;
    }
  }

  /** `int(s)` for a run of digits; `None` for anything else. */
  function ParseNatText(s: string): (r: Option<nat>)
    ensures r.Some? <==> |s| > 0 && forall i :: 0 <= i < |s| ==> IsDigit(s[i])
  {
    if |s| > 0 && forall i :: 0 <= i < |s| ==> IsDigit(s[i]) then Some(ParseNat(s)) else None
  }

  /** `int(s)` for an optionally negative run of digits. */
  function ParseIntText(s: string): Option<int>
  {
    if |s| > 0 && s[0] == '-' then
      match ParseNatText(s[1..])
      case None => None
      case Some(n) => Option<int>.Some(-(n as int))
    else
      match ParseNatText(s)
      case None => None
      case Some(n) => Option<int>.Some(n)
  }

  /** `f'{i}'` for any integer: a minus sign, then the digits of the magnitude. */
  function IntToString(i: int): (s: string)
    ensures |s| > 0
    ensures i >= 0 ==> s == NatToString(i)
    ensures i < 0 ==> s == "-" + NatToString(-i)
  {
    if i < 0 then "-" + NatToString(-i) else NatToString(i)
  }

  /** Rendering a number and reading it back gives the number. */
  lemma NatTextRoundTrip(n: nat)
    ensures ParseNatText(NatToString(n)) == Some(n)
  {
    NatToStringRoundTrip(n);
  }

  lemma IntTextRoundTrip(i: int)
    ensures ParseIntText(IntToString(i)) == Some(i)
  {
    var m: nat := if i < 0 then -i else i;
    var t := NatToString(m);
    NatTextRoundTrip(m);
    if i < 0 {
      var s := "-" + t;
      assert s[0] == '-' && s[1..] == t;
    } else {
      assert IsDigit(t[0]);
    }
  }

  /** A rendered integer holds only digits and perhaps a leading minus sign. */
  lemma IntTextChars(i: int, c: char)
    requires !IsDigit(c) && c != '-'
    ensures c !in IntToString(i)
  {
    var t := NatToString(if i < 0 then -i else i);
    assert forall k :: 0 <= k < |t| ==> t[k] != c;
    assert c !in t;
    if i < 0 {
      assert IntToString(i) == "-" + t;
    }
  }

  // ---------------------------------------------------------------------
  // Upper-casing, joining and splitting

  /** The upper-case partner of an ASCII lower-case letter: `'a'` to `'A'`, ..., `'z'` to `'Z'`. */
  function UpperOf(c: char): (r: char)
    requires 'a' <= c <= 'z'
    ensures 'A' <= r <= 'Z' && r as int - 'A' as int == c as int - 'a' as int
  {
    (c as int - 'a' as int + 'A' as int) as char
  }

  /** `str.upper` on ASCII letters; other characters are kept. */
  function Upper(s: string): (u: string)
    ensures |u| == |s|
    ensures forall i :: 0 <= i < |s| && 'a' <= s[i] <= 'z' ==> u[i] == UpperOf(s[i])
    ensures forall i :: 0 <= i < |s| ==> (u[i] == s[i] <==> !('a' <= s[i] <= 'z'))
    ensures forall i :: 0 <= i < |s| ==> !('a' <= u[i] <= 'z')
  {
    if |s| == 0 then ""
    else
      var c := s[0];
      [if 'a' <= c <= 'z' then UpperOf(c) else c] + Upper(s[1..])
  }

  /** `sep.join(ts)`. */
  function Join(ts: seq<string>, sep: char): string
  {
    if |ts| == 0 then ""
    else if |ts| == 1 then ts[0]
    else ts[0] + [sep] + Join(ts[1..], sep)
  }

  /** Every token followed by the separator: `t0 sep t1 sep ... tn sep`. */
  function Terminated(ts: seq<string>, sep: char): string
  {
    if |ts| == 0 then "" else ts[0] + [sep] + Terminated(ts[1..], sep)
  }

  lemma {:induction false} TerminatedJoin(ts: seq<string>, sep: char)
    ensures Terminated(ts, sep) == Join(ts + [""], sep)
    decreases |ts|
  {
    if |ts| > 0 {
      TerminatedJoin(ts[1..], sep);
      assert (ts + [""])[1..] == ts[1..] + [""];
    }
  }

  /** `s.split(sep)`: every separator cuts, so `k` separators give `k + 1` pieces. */
  function Split(s: string, sep: char): (r: seq<string>)
    ensures |r| > 0
  {
    if |s| == 0 then [""]
    else if s[0] == sep then [""] + Split(s[1..], sep)
    else
      var rest := Split(s[1..], sep);
      [[s[0]] + rest[0]] + rest[1..]
  }

  lemma {:induction false} SplitNoSep(t: string, sep: char, rest: string)
    requires sep !in t
    ensures Split(t, sep) == [t]
    ensures Split(t + [sep] + rest, sep) == [t] + Split(rest, sep)
    decreases |t|
  {
    if |t| == 0 {
      assert t + [sep] + rest == [sep] + rest;
      assert ([sep] + rest)[1..] == rest;
    } else {
      SplitNoSep(t[1..], sep, rest);
      assert (t + [sep] + rest)[1..] == t[1..] + [sep] + rest;
      assert [t[0]] + t[1..] == t;
    }
  }

  /** Joining tokens free of the separator can be undone by splitting. */
  lemma {:induction false} SplitJoin(ts: seq<string>, sep: char)
    requires |ts| > 0
    requires forall k :: 0 <= k < |ts| ==> sep !in ts[k]
    ensures Split(Join(ts, sep), sep) == ts
    decreases |ts|
  {
    if |ts| == 1 {
      SplitNoSep(ts[0], sep, "");
    } else {
      SplitJoin(ts[1..], sep);
      SplitNoSep(ts[0], sep, Join(ts[1..], sep));
      assert [ts[0]] + ts[1..] == ts;
    }
  }

  /** Separator-terminated tokens split back into the tokens and a final empty piece. */
  lemma TerminatedSplit(ts: seq<string>, sep: char)
    requires forall k :: 0 <= k < |ts| ==> sep !in ts[k]
    ensures Split(Terminated(ts, sep), sep) == ts + [""]
  {
    TerminatedJoin(ts, sep);
    SplitJoin(ts + [""], sep);
  }
}
