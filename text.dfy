/** String operations of Python's `str` that the pipeline relies on. */
module Text {

  /** Python's whitespace test (`str.isspace`, the regex class `\s`) on ASCII characters. */
  predicate IsSpace(c: char) {
    c == ' ' || c == '\t' || c == '\n' || c == '\r' || c == '\U{000B}' || c == '\U{000C}'
    || ('\U{001C}' <= c <= '\U{001F}')
  }

  /** The regex class `\d` on ASCII characters. */
  predicate IsDigit(c: char) {
    '0' <= c <= '9'
  }

  predicate IsBlank(s: string) {
    forall k :: 0 <= k < |s| ==> IsSpace(s[k])
  }

  predicate AllDigits(s: string) {
    forall k :: 0 <= k < |s| ==> IsDigit(s[k])
  }

  predicate StartsWith(s: string, prefix: string) {
    |prefix| <= |s| && s[..|prefix|] == prefix
  }

  /** `sep` occurs somewhere in `s`. */
  predicate Contains(s: string, sep: string) {
    exists p :: 0 <= p <= |s| && StartsWith(s[p..], sep)
  }

  lemma ConcatAssoc<T>(a: seq<T>, b: seq<T>, c: seq<T>)
    ensures (a + b) + c == a + (b + c)
  {
  }

  lemma TakeOneMore<T>(s: seq<T>, i: nat)
    requires 0 < i <= |s|
    ensures s[..i] == s[..i - 1] + [s[i - 1]]
  {
  }

  lemma TakeAll<T>(s: seq<T>)
    ensures s[..|s|] == s
  {
  }

  // ---------------------------------------------------------------- strip

  /** Drops trailing whitespace. */
  function TrimEnd(s: string): (r: string)
    ensures |r| <= |s| && r == s[..|r|]
    ensures forall k :: |r| <= k < |s| ==> IsSpace(s[k])
    ensures r == [] || !IsSpace(r[|r| - 1])
  {
    if s != [] && IsSpace(s[|s| - 1]) then TrimEnd(s[..|s| - 1]) else s
  }

  /** The length of the run of whitespace that opens `s`. */
  function LeadingSpaces(s: string): (n: nat)
    ensures n <= |s| && IsBlank(s[..n])
    ensures n == |s| || !IsSpace(s[n])
  {
    if s != [] && IsSpace(s[0]) then
      var n := 1 + LeadingSpaces(s[1..]);
      assert forall k :: 1 <= k < n ==> s[k] == s[1..][..n - 1][k - 1];
      n
    else 0
  }

  /** Python's `str.strip()`. The text is empty exactly when the input is all whitespace,
      and otherwise neither begins nor ends with whitespace; `StripIsOuterSlice` shows that
      it is the input with its leading and trailing whitespace cut off, and nothing else. */
  function Strip(s: string): (r: string)
    ensures r == [] <==> IsBlank(s)
    ensures r != [] ==> !IsSpace(r[0]) && !IsSpace(r[|r| - 1])
  {
    if s != [] && IsSpace(s[0]) then
      assert forall k :: 0 < k < |s| ==> s[k] == s[1..][k - 1];
      Strip(s[1..])
    else TrimEnd(s)
  }

  /** `strip()` keeps the slice that starts after the leading whitespace, and only whitespace
      follows that slice. */
  lemma {:induction false} StripIsOuterSlice(s: string)
    ensures LeadingSpaces(s) + |Strip(s)| <= |s|
    ensures Strip(s) == s[LeadingSpaces(s)..LeadingSpaces(s) + |Strip(s)|]
    ensures IsBlank(s[LeadingSpaces(s) + |Strip(s)|..])
  {
    if s != [] && IsSpace(s[0]) {
      StripIsOuterSlice(s[1..]);
      assert s[1..][LeadingSpaces(s[1..]) + |Strip(s)|..] == s[LeadingSpaces(s) + |Strip(s)|..];
    }
  }

  /** `strip()` removes whitespace from the two ends only: the result is a contiguous piece
      of the input with nothing but whitespace before and after it. */
  lemma StripCutsOnlyOuterWhitespace(s: string)
    ensures exists i, j :: 0 <= i <= j <= |s| && Strip(s) == s[i..j] && IsBlank(s[..i]) && IsBlank(s[j..])
  {
    StripIsOuterSlice(s);
    var i := LeadingSpaces(s);
    var j := i + |Strip(s)|;
    assert Strip(s) == s[i..j] && IsBlank(s[..i]) && IsBlank(s[j..]);
  }

  // ---------------------------------------------------------------- split and join

  /** `str.split(sep)`: cuts at every occurrence of `sep`, scanning left to right;
      `piece` is the part of the current piece already read. */
  function SplitFrom(s: string, sep: string, piece: string): (r: seq<string>)
    requires |sep| > 0
    ensures |r| > 0
    decreases |s|
  {
    if |s| == 0 then [piece]
    else if StartsWith(s, sep) then [piece] + SplitFrom(s[|sep|..], sep, "")
    else SplitFrom(s[1..], sep, piece + [s[0]])
  }

  function Split(s: string, sep: string): seq<string>
    requires |sep| > 0
  {
    SplitFrom(s, sep, "")
  }

  /** The number of non-overlapping occurrences of `sep`, counted left to right (`str.count`). */
  function Occurrences(s: string, sep: string): nat
    requires |sep| > 0
    decreases |s|
  {
    if |s| == 0 then 0
    else if StartsWith(s, sep) then 1 + Occurrences(s[|sep|..], sep)
    else Occurrences(s[1..], sep)
  }

  /** `sep.join(parts)`. */
  function Join(parts: seq<string>, sep: string): string {
    if |parts| == 0 then ""
    else if |parts| == 1 then parts[0]
    else parts[0] + sep + Join(parts[1..], sep)
  }

  /** Every line followed by the terminator `c`, as a file written line by line. */
  function Terminated(lines: seq<string>, c: char): string {
    if lines == [] then "" else lines[0] + [c] + Terminated(lines[1..], c)
  }

  lemma {:induction false} SplitFromCount(s: string, sep: string, piece: string)
    requires |sep| > 0
    ensures |SplitFrom(s, sep, piece)| == Occurrences(s, sep) + 1
    decreases |s|
  {
    if |s| == 0 {
    } else if StartsWith(s, sep) {
      SplitFromCount(s[|sep|..], sep, "");
    } else {
      SplitFromCount(s[1..], sep, piece + [s[0]]);
    }
  }

  /** `str.split` yields one more piece than there are separators. */
  lemma SplitCount(s: string, sep: string)
    requires |sep| > 0
    ensures |Split(s, sep)| == Occurrences(s, sep) + 1
  {
    SplitFromCount(s, sep, "");
  }

  lemma {:induction false} JoinSplitFrom(s: string, sep: string, piece: string)
    requires |sep| > 0
    ensures Join(SplitFrom(s, sep, piece), sep) == piece + s
    decreases |s|
  {
    if |s| == 0 {
    } else if StartsWith(s, sep) {
      var rest := SplitFrom(s[|sep|..], sep, "");
      JoinSplitFrom(s[|sep|..], sep, "");
      assert SplitFrom(s, sep, piece)[1..] == rest;
      assert s == sep + s[|sep|..];
    } else {
      JoinSplitFrom(s[1..], sep, piece + [s[0]]);
      assert piece + [s[0]] + s[1..] == piece + s;
    }
  }

  /** Joining the pieces of a split with the same separator gives back the input. */
  lemma JoinSplit(s: string, sep: string)
    requires |sep| > 0
    ensures Join(Split(s, sep), sep) == s
  {
    JoinSplitFrom(s, sep, "");
  }

  lemma {:induction false} SplitFromNoSeparator(s: string, sep: string, piece: string)
    requires |sep| > 0
    requires !Contains(s, sep)
    ensures SplitFrom(s, sep, piece) == [piece + s]
    decreases |s|
  {
    if |s| == 0 {
      assert piece + s == piece;
    } else {
      assert s[0..] == s;
      assert !StartsWith(s, sep);
      assert !Contains(s[1..], sep) by {
        forall p | 0 <= p <= |s[1..]| ensures !StartsWith(s[1..][p..], sep) {
          assert s[1..][p..] == s[p + 1..];
        }
      }
      SplitFromNoSeparator(s[1..], sep, piece + [s[0]]);
      assert piece + [s[0]] + s[1..] == piece + s;
    }
  }

  /** Text without the separator splits into itself alone. */
  lemma SplitNoSeparator(s: string, sep: string)
    requires |sep| > 0
    requires !Contains(s, sep)
    ensures Split(s, sep) == [s]
  {
    SplitFromNoSeparator(s, sep, "");
    assert "" + s == s;
  }

  lemma {:induction false} SplitFromSkips(x: string, t: string, c: char, piece: string)
    requires c !in x
    ensures SplitFrom(x + t, [c], piece) == SplitFrom(t, [c], piece + x)
    decreases |x|
  {
    if x == [] {
      assert x + t == t;
      assert piece + x == piece;
    } else {
      var s := x + t;
      assert s[0] == x[0] && x[0] != c;
      assert s[..1] != [c];
      assert s[1..] == x[1..] + t;
      SplitFromSkips(x[1..], t, c, piece + [x[0]]);
      assert piece + [x[0]] + x[1..] == piece + x;
    }
  }

  /** Lines that do not contain the terminator are recovered by splitting on it;
      the text after the final terminator is the empty piece. */
  lemma {:induction false} SplitTerminated(lines: seq<string>, c: char)
    requires forall k :: 0 <= k < |lines| ==> c !in lines[k]
    ensures Split(Terminated(lines, c), [c]) == lines + [""]
  {
    if lines != [] {
      var rest := Terminated(lines[1..], c);
      assert Terminated(lines, c) == lines[0] + ([c] + rest);
      SplitFromSkips(lines[0], [c] + rest, c, "");
      assert "" + lines[0] == lines[0];
      var s := [c] + rest;
      assert StartsWith(s, [c]);
      assert s[1..] == rest;
      SplitTerminated(lines[1..], c);
      assert lines == [lines[0]] + lines[1..];
    }
  }

  lemma {:induction false} TerminatedAppend(lines: seq<string>, line: string, c: char)
    ensures Terminated(lines + [line], c) == Terminated(lines, c) + line + [c]
  {
    if lines != [] {
      assert (lines + [line])[1..] == lines[1..] + [line];
      TerminatedAppend(lines[1..], line, c);
    } else {
      assert [line][1..] == [];
    }
  }

  // ---------------------------------------------------------------- integers as text

  function DigitChar(d: nat): (c: char)
    requires d < 10
    ensures IsDigit(c) && c as int - '0' as int == d
  {
    (48 + d) as char
  }

  /** `str(n)` for a non-negative integer. */
  function NatToString(n: nat): (r: string)
    ensures |r| > 0 && AllDigits(r)
  {
    if n < 10 then [DigitChar(n)] else NatToString(n / 10) + [DigitChar(n % 10)]
  }

  /** `str(i)` for any integer: a minus sign before the digits of a negative number. */
  function IntToString(i: int): (r: string)
    ensures |r| > 0 && '_' !in r
    ensures r[0] == '-' <==> i < 0
  {
    if i < 0 then "-" + NatToString(-i) else NatToString(i)
  }

  /** The number a run of decimal digits denotes. */
  function ParseNat(s: string): nat
    requires AllDigits(s)
  {
    if s == [] then 0 else ParseNat(s[..|s| - 1]) * 10 + (s[|s| - 1] as int - '0' as int)
  }

  lemma {:induction false} ParseNatToString(n: nat)
    ensures ParseNat(NatToString(n)) == n
  {
    if n >= 10 {
      var s := NatToString(n);
      assert s[..|s| - 1] == NatToString(n / 10);
      ParseNatToString(n / 10);
    }
  }

  /** Distinct integers print differently. */
  lemma IntToStringInjective(a: int, b: int)
    requires IntToString(a) == IntToString(b)
    ensures a == b
  {
    if a < 0 && b < 0 {
      assert NatToString(-a) == IntToString(a)[1..];
      ParseNatToString(-a);
      ParseNatToString(-b);
    } else if a >= 0 && b >= 0 {
      ParseNatToString(a);
      ParseNatToString(b);
    }
  }
}
