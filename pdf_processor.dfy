/** Page numbering of the converted markdown (`DocumentProcessor.convert_to_markdown`):
    the converter's output is cut at its page-break placeholder and every non-blank page
    is re-emitted under a `# Page i` heading. */
module PdfProcessor {
  import opened Python
  import opened Text
  import opened PagePattern

  /** The placeholder the converter is asked to put between pages. */
  const PageBreak := "<!-- Page Break -->"

  /** What a block starts with, before its page number. */
  const BlockHeading := "\n\n# Page "

  /** The block written for the segment at 1-based position `i`. */
  function PageBlock(i: nat, segment: string): string {
    BlockHeading + NatToString(i) + "\n\n " + Strip(segment) + "\n"
  }

  /** What one segment contributes: its block, or nothing when it is blank. */
  function Emit(i: nat, segment: string): string {
    if Strip(segment) != "" then PageBlock(i, segment) else ""
  }

  /** The numbered output for `segments` when the first of them has number `first`. */
  function NumberedFrom(segments: seq<string>, first: nat): string {
    if segments == [] then "" else Emit(first, segments[0]) + NumberedFrom(segments[1..], first + 1)
  }

  /** The numbered output for the converter's whole markdown. */
  function Numbered(markdown: string): string {
    NumberedFrom(Split(markdown, PageBreak), 1)
  }

  /** The page numbers that receive a block, in output order. */
  function EmittedFrom(segments: seq<string>, first: nat): (pages: seq<nat>)
    ensures |pages| <= |segments|
    ensures forall k :: 0 <= k < |pages| ==> first <= pages[k] < first + |segments|
  {
    if segments == [] then []
    else if Strip(segments[0]) != "" then [first] + EmittedFrom(segments[1..], first + 1)
    else EmittedFrom(segments[1..], first + 1)
  }

  /** The blocks of the listed pages, concatenated in the order listed. */
  function Blocks(segments: seq<string>, first: nat, pages: seq<nat>): string
    requires forall k :: 0 <= k < |pages| ==> first <= pages[k] < first + |segments|
  {
    if pages == [] then ""
    else PageBlock(pages[0], segments[pages[0] - first]) + Blocks(segments, first, pages[1..])
  }

  /** The page-numbering loop. */
  method NumberPages(markdownOutput: string) returns (numberedOutput: string)
    ensures numberedOutput == Numbered(markdownOutput)
  {
    var lines := Split(markdownOutput, PageBreak);
    numberedOutput := "";
    for i := 1 to |lines| + 1
      invariant numberedOutput == NumberedFrom(lines[..i - 1], 1)
    {
      var segment := lines[i - 1];
      NumberedAppend(lines[..i - 1], segment, 1);
      TakeOneMore(lines, i);
      if Strip(segment) != "" {
        numberedOutput := numberedOutput + PageBlock(i, segment);
      }
    }
    TakeAll(lines);
  }

  lemma {:induction false} NumberedAppend(segments: seq<string>, segment: string, first: nat)
    ensures NumberedFrom(segments + [segment], first)
         == NumberedFrom(segments, first) + Emit(first + |segments|, segment)
  {
    var all := segments + [segment];
    if segments == [] {
      assert all[1..] == [];
      assert NumberedFrom(all, first) == Emit(first, segment) + NumberedFrom([], first + 1);
    } else {
      assert all[0] == segments[0];
      assert all[1..] == segments[1..] + [segment];
      NumberedAppend(segments[1..], segment, first + 1);
      ConcatAssoc(Emit(first, segments[0]), NumberedFrom(segments[1..], first + 1),
                  Emit(first + |segments|, segment));
    }
  }

  /** A page number is emitted exactly when its segment is not blank: blank segments
      are skipped but still use up their number. */
  lemma {:induction false} EmittedExactlyNonBlank(segments: seq<string>, first: nat, p: nat)
    ensures p in EmittedFrom(segments, first)
        <==> first <= p < first + |segments| && !IsBlank(segments[p - first])
  {
    if segments != [] {
      EmittedExactlyNonBlank(segments[1..], first + 1, p);
      if first < p < first + |segments| {
        assert segments[1..][p - (first + 1)] == segments[p - first];
      }
    }
  }

  predicate Increasing(pages: seq<nat>) {
    forall j, k :: 0 <= j < k < |pages| ==> pages[j] < pages[k]
  }

  /** Page numbers are emitted in strictly increasing order. */
  lemma {:induction false} EmittedIncreasing(segments: seq<string>, first: nat)
    ensures Increasing(EmittedFrom(segments, first))
  {
    if segments != [] {
      var rest := EmittedFrom(segments[1..], first + 1);
      EmittedIncreasing(segments[1..], first + 1);
      if Strip(segments[0]) != "" {
        var pages := [first] + rest;
        assert EmittedFrom(segments, first) == pages;
        forall j, k | 0 <= j < k < |pages| ensures pages[j] < pages[k] {
          assert pages[k] == rest[k - 1] && first + 1 <= rest[k - 1];
          if j > 0 {
            assert pages[j] == rest[j - 1];
          }
        }
      } else {
        assert EmittedFrom(segments, first) == rest;
      }
    }
  }

  lemma {:induction false} BlocksShift(segments: seq<string>, first: nat, pages: seq<nat>)
    requires segments != []
    requires forall k :: 0 <= k < |pages| ==> first + 1 <= pages[k] < first + |segments|
    ensures Blocks(segments[1..], first + 1, pages) == Blocks(segments, first, pages)
  {
    if pages != [] {
      assert segments[1..][pages[0] - (first + 1)] == segments[pages[0] - first];
      BlocksShift(segments, first, pages[1..]);
    }
  }

  /** The output is the blocks of the emitted pages, in increasing page order. */
  lemma {:induction false} NumberedIsBlocks(segments: seq<string>, first: nat)
    ensures NumberedFrom(segments, first) == Blocks(segments, first, EmittedFrom(segments, first))
  {
    if segments != [] {
      var rest := EmittedFrom(segments[1..], first + 1);
      NumberedIsBlocks(segments[1..], first + 1);
      BlocksShift(segments, first, rest);
      if Strip(segments[0]) != "" {
        assert ([first] + rest)[1..] == rest;
      }
    }
  }

  /** The number of blocks is at most the number of placeholders plus one. */
  lemma BlockCount(markdown: string)
    ensures |EmittedFrom(Split(markdown, PageBreak), 1)| <= Occurrences(markdown, PageBreak) + 1
  {
    SplitCount(markdown, PageBreak);
  }

  /** Markdown without a placeholder and with some non-blank text becomes the single block `Page 1`. */
  lemma SinglePage(markdown: string)
    requires !Contains(markdown, PageBreak) && !IsBlank(markdown)
    ensures Numbered(markdown) == PageBlock(1, markdown)
    ensures EmittedFrom(Split(markdown, PageBreak), 1) == [1]
  {
    SplitNoSeparator(markdown, PageBreak);
    assert Strip(markdown) != "";
    assert [markdown][1..] == [];
    assert NumberedFrom([markdown], 1) == Emit(1, markdown) + NumberedFrom([], 2);
  }

  /** Empty or all-whitespace markdown becomes the empty string. */
  lemma BlankInput(markdown: string)
    requires IsBlank(markdown)
    ensures Numbered(markdown) == ""
  {
    forall p | 0 <= p <= |markdown| ensures !StartsWith(markdown[p..], PageBreak) {
      if p + |PageBreak| <= |markdown| {
        assert markdown[p..][..|PageBreak|][0] != PageBreak[0];
      }
    }
    SplitNoSeparator(markdown, PageBreak);
    assert Strip(markdown) == "";
    assert [markdown][1..] == [];
    assert NumberedFrom([markdown], 1) == Emit(1, markdown) + NumberedFrom([], 2);
  }

  /** The chunker's page search, run on a block and whatever follows it, finds that
      block's own heading and captures its number `str(i)`. */
  lemma BlockMarkerIsFirstMatch(i: nat, segment: string, rest: string)
    ensures Search(PageBlock(i, segment) + rest) == Some(NatToString(i))
  {
    var tail := "\n\n " + Strip(segment) + "\n" + rest;
    assert PageBlock(i, segment) + rest == BlockHeading + NatToString(i) + tail;
    HeadingIsFirstMatch(NatToString(i), tail);
  }

  /** A text that opens with a block heading: the search matches at its `#`. */
  lemma HeadingIsFirstMatch(digits: string, tail: string)
    requires |digits| > 0 && AllDigits(digits) && tail != [] && tail[0] == '\n'
    ensures Search(BlockHeading + digits + tail) == Some(digits)
  {
    var s := BlockHeading + digits + tail;
    HeadingLayout(digits, tail);
    assert RegexMatchAt(s, 2, 4, 9, digits);
    RegexMatchIsScanMatch(s, 2, 4, 9, digits);
    SearchFindsFirstMatch(s, 2, digits);
  }

  lemma HeadingLayout(digits: string, tail: string)
    requires tail != [] && tail[0] == '\n'
    ensures var s := BlockHeading + digits + tail;
      && |s| == 9 + |digits| + |tail|
      && s[0] == '\n' && s[1] == '\n' && s[2] == '#' && s[3] == ' ' && s[8] == ' '
      && s[4..8] == Keyword && s[9..9 + |digits|] == digits && s[9 + |digits|] == '\n'
  {
    var s := BlockHeading + digits + tail;
    assert s[..9] == BlockHeading;
    assert s[4..8] == BlockHeading[4..8];
    assert s[9..9 + |digits|] == digits;
    assert s[9 + |digits|] == tail[0];
  }

  /** The first page heading in the numbered output is that of the first emitted page,
      so the chunker labels the start of the output with it. */
  lemma {:induction false} FirstMatchIsFirstPage(segments: seq<string>, first: nat)
    requires EmittedFrom(segments, first) != []
    ensures Search(NumberedFrom(segments, first)) == Some(NatToString(EmittedFrom(segments, first)[0]))
  {
    if Strip(segments[0]) != "" {
      BlockMarkerIsFirstMatch(first, segments[0], NumberedFrom(segments[1..], first + 1));
    } else {
      assert NumberedFrom(segments, first) == NumberedFrom(segments[1..], first + 1);
      FirstMatchIsFirstPage(segments[1..], first + 1);
    }
  }
}
