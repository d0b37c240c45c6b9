/** The page-marker search of the chunker: Python's `re.search(r'#\s*Page\s*(\d+)', text)`,
    written out as a scan that tries every start position from the left. */
module PagePattern {
  import opened Python
  import opened Text

  const Keyword := "Page"

  /** The end of the run of whitespace that starts at `p` (greedy `\s*`). */
  function SkipSpaces(s: string, p: nat): (q: nat)
    requires p <= |s|
    ensures p <= q <= |s|
    ensures forall k :: p <= k < q ==> IsSpace(s[k])
    ensures q == |s| || !IsSpace(s[q])
    decreases |s| - p
  {
    if p < |s| && IsSpace(s[p]) then SkipSpaces(s, p + 1) else p
  }

  /** The end of the run of digits that starts at `p` (greedy `\d+`, before its length check). */
  function SkipDigits(s: string, p: nat): (q: nat)
    requires p <= |s|
    ensures p <= q <= |s|
    ensures forall k :: p <= k < q ==> IsDigit(s[k])
    ensures q == |s| || !IsDigit(s[q])
    decreases |s| - p
  {
    if p < |s| && IsDigit(s[p]) then SkipDigits(s, p + 1) else p
  }

  /** The digits the pattern captures when its match starts at position `p`, if it matches there. */
  function MatchAt(s: string, p: nat): Option<string>
    requires p < |s|
  {
    if s[p] != '#' then None
    else
      var a := SkipSpaces(s, p + 1);
      if !StartsWith(s[a..], Keyword) then None
      else
        var b := SkipSpaces(s, a + |Keyword|);
        var e := SkipDigits(s, b);
        if b == e then None else Some(s[b..e])
  }

  /** The leftmost match at or after `p`. */
  function SearchFrom(s: string, p: nat): Option<string>
    decreases |s| - p
  {
    if p >= |s| then None
    else
      var m := MatchAt(s, p);
      if m.Some? then m else SearchFrom(s, p + 1)
  }

  /** `re.search`: the group captured by the leftmost match, or no match. */
  function Search(s: string): Option<string> {
    SearchFrom(s, 0)
  }

  /** The label the chunker builds from a captured group: `f"Page {digits}"`. */
  function PageLabel(digits: string): string {
    "Page " + digits
  }

  /** The pattern `#\s*Page\s*(\d+)` matches the text at `p`, with `Page` starting at `a`
      and the captured digits `d` starting at `b`; `\d+` is greedy, so `d` is a maximal run. */
  ghost predicate RegexMatchAt(s: string, p: nat, a: nat, b: nat, d: string) {
    && p < a && a + |Keyword| <= b && b + |d| <= |s|
    && s[p] == '#'
    && (forall k :: p < k < a ==> IsSpace(s[k]))
    && s[a..a + |Keyword|] == Keyword
    && (forall k :: a + |Keyword| <= k < b ==> IsSpace(s[k]))
    && |d| > 0 && s[b..b + |d|] == d && AllDigits(d)
    && (b + |d| == |s| || !IsDigit(s[b + |d|]))
  }

  /** A match found by the scan is a match of the regular expression, with the same capture. */
  lemma ScanMatchIsRegexMatch(s: string, p: nat, d: string)
    requires p < |s| && MatchAt(s, p) == Some(d)
    ensures exists a, b :: RegexMatchAt(s, p, a, b, d)
  {
    var a := SkipSpaces(s, p + 1);
    var b := SkipSpaces(s, a + |Keyword|);
    var e := SkipDigits(s, b);
    RegexMatchFromScan(s, p, a, b, e, d);
  }

  /** The facts the scan establishes, read as a match of the regular expression. */
  lemma RegexMatchFromScan(s: string, p: nat, a: nat, b: nat, e: nat, d: string)
    requires p < a <= |s| && StartsWith(s[a..], Keyword) && a + |Keyword| <= b < e <= |s|
    requires s[p] == '#' && d == s[b..e]
    requires forall k :: p + 1 <= k < a ==> IsSpace(s[k])
    requires forall k :: a + |Keyword| <= k < b ==> IsSpace(s[k])
    requires forall k :: b <= k < e ==> IsDigit(s[k])
    requires e == |s| || !IsDigit(s[e])
    ensures RegexMatchAt(s, p, a, b, d)
  {
    assert s[a..][..|Keyword|] == s[a..a + |Keyword|];
    assert forall k :: 0 <= k < |d| ==> d[k] == s[b + k];
  }

  /** A match of the regular expression is found by the scan, with the same capture:
      the greedy `\s*` before `Page` and before the digits cannot stop anywhere else. */
  lemma RegexMatchIsScanMatch(s: string, p: nat, a: nat, b: nat, d: string)
    requires p < |s| && RegexMatchAt(s, p, a, b, d)
    ensures MatchAt(s, p) == Some(d)
  {
    KeywordStopsSpaces(s, a);
    SkipSpacesStopsAt(s, p + 1, a);
    DigitsStopSpaces(s, b, d);
    SkipSpacesStopsAt(s, a + |Keyword|, b);
    SkipDigitsStopsAt(s, b, b + |d|);
    MatchAtFromParts(s, p, a, b, b + |d|, d);
  }

  /** The scan at `p`, given where each of its steps stops. */
  lemma MatchAtFromParts(s: string, p: nat, a: nat, b: nat, e: nat, d: string)
    requires p < |s| && s[p] == '#' && p + 1 <= a && a + |Keyword| <= b < e <= |s|
    requires SkipSpaces(s, p + 1) == a && StartsWith(s[a..], Keyword)
    requires SkipSpaces(s, a + |Keyword|) == b && SkipDigits(s, b) == e && d == s[b..e]
    ensures MatchAt(s, p) == Some(d)
  {
  }

  /** `Page` at `a` is where a run of whitespace before it ends. */
  lemma KeywordStopsSpaces(s: string, a: nat)
    requires a + |Keyword| <= |s| && s[a..a + |Keyword|] == Keyword
    ensures !IsSpace(s[a]) && StartsWith(s[a..], Keyword)
  {
    assert s[a..a + |Keyword|][0] == s[a];
    assert s[a..][..|Keyword|] == s[a..a + |Keyword|];
  }

  /** A run of digits `d` at `b` is where a run of whitespace before it ends. */
  lemma DigitsStopSpaces(s: string, b: nat, d: string)
    requires |d| > 0 && b + |d| <= |s| && s[b..b + |d|] == d && AllDigits(d)
    ensures !IsSpace(s[b])
    ensures forall k :: b <= k < b + |d| ==> IsDigit(s[k])
  {
    assert s[b..b + |d|][0] == s[b];
    forall k | b <= k < b + |d| ensures IsDigit(s[k]) {
      assert s[k] == s[b..b + |d|][k - b];
    }
  }

  lemma {:induction false} SkipSpacesStopsAt(s: string, p: nat, q: nat)
    requires p <= q < |s| && !IsSpace(s[q])
    requires forall k :: p <= k < q ==> IsSpace(s[k])
    ensures SkipSpaces(s, p) == q
    decreases q - p
  {
    if p < q {
      SkipSpacesStopsAt(s, p + 1, q);
    }
  }

  lemma {:induction false} SkipDigitsStopsAt(s: string, p: nat, q: nat)
    requires p <= q <= |s| && (q == |s| || !IsDigit(s[q]))
    requires forall k :: p <= k < q ==> IsDigit(s[k])
    ensures SkipDigits(s, p) == q
    decreases q - p
  {
    if p < q {
      SkipDigitsStopsAt(s, p + 1, q);
    }
  }

  lemma {:induction false} SearchFromNone(s: string, p: nat)
    ensures SearchFrom(s, p) == None <==> forall q :: p <= q < |s| ==> MatchAt(s, q) == None
    decreases |s| - p
  {
    if p < |s| {
      SearchFromNone(s, p + 1);
    }
  }

  lemma {:induction false} SearchFromPosition(s: string, p: nat) returns (q: nat)
    requires SearchFrom(s, p).Some?
    ensures p <= q < |s| && MatchAt(s, q) == SearchFrom(s, p)
    ensures forall q' :: p <= q' < q ==> MatchAt(s, q') == None
    decreases |s| - p
  {
    if MatchAt(s, p).Some? {
      q := p;
    } else {
      q := SearchFromPosition(s, p + 1);
      assert forall q' :: p + 1 <= q' < q ==> MatchAt(s, q') == None;
    }
  }

  /** `re.search` finds nothing exactly when the pattern matches at no position. */
  lemma SearchNoneIffNoMatch(s: string)
    ensures Search(s) == None <==> forall q :: 0 <= q < |s| ==> MatchAt(s, q) == None
  {
    SearchFromNone(s, 0);
  }

  /** What `re.search` returns is the capture at the leftmost position where the pattern
      matches: an earlier match in the text always wins over a later one. */
  lemma SearchIsLeftmost(s: string) returns (q: nat)
    requires Search(s).Some?
    ensures q < |s| && MatchAt(s, q) == Search(s)
    ensures forall q' :: 0 <= q' < q ==> MatchAt(s, q') == None
  {
    q := SearchFromPosition(s, 0);
  }

  /** A match at `p` with nothing matching before it is what `re.search` returns. */
  lemma {:induction false} SearchFindsFirstMatch(s: string, p: nat, d: string)
    requires p < |s| && MatchAt(s, p) == Some(d)
    requires forall q :: 0 <= q < p ==> MatchAt(s, q) == None
    ensures Search(s) == Some(d)
  {
    var q := 0;
    while q < p
      invariant q <= p
      invariant SearchFrom(s, q) == SearchFrom(s, 0)
    {
      q := q + 1;
    }
  }
}
