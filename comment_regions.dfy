/**
 * What `checkForCodeComment` and `computeSelectionAdapations` mean, stated
 * with comment regions rather than with the two scans. A line lies in a
 * region when it is between the last line at or before it that contains the
 * opening delimiter and the first line from there on that contains the
 * closing delimiter; lines are read with their tags deleted.
 */
module CommentRegions {
  import opened TagGrammar
  import opened FileParser

  /** `line` lies in the comment that opens on line `o` and closes on line `c`. */
  ghost predicate Region(text: seq<string>, st: string, et: string, line: nat, o: nat, c: nat)
  {
    && o <= line <= c < |text|
    && Contains(text[o], st)
    && (forall k :: o < k <= line ==> !Contains(text[k], st))
    && Contains(text[c], et)
    && (forall k :: o <= k < c ==> !Contains(text[k], et))
  }

  lemma {:induction false} LastContainingUnique(text: seq<string>, t: string, n: nat, o: nat)
    requires o < n <= |text|
    requires Contains(text[o], t)
    requires forall k :: o < k < n ==> !Contains(text[k], t)
    ensures LastContaining(text, t, n) == o
  {
    if n - 1 != o {
      LastContainingUnique(text, t, n - 1, o);
    }
  }

  lemma {:induction false} FirstContainingUnique(text: seq<string>, t: string, from: nat, c: nat)
    requires from <= c < |text|
    requires Contains(text[c], t)
    requires forall k :: from <= k < c ==> !Contains(text[k], t)
    decreases c - from
    ensures FirstContaining(text, t, from) == c
  {
    if from != c {
      FirstContainingUnique(text, t, from + 1, c);
    }
  }

  /** Inside a region, the result is the line before the opening line and the
      closing line, the latter replaced by -1 when it is `line` itself. */
  lemma CommentAroundInRegion(text: seq<string>, st: string, et: string, line: nat, o: nat, c: nat)
    requires line < |text| && Region(text, st, et, line, o, c)
    ensures CommentAround(text, st, et, line) == (o - 1, if c == line then -1 else c)
  {
    LastContainingUnique(text, st, line + 1, o);
    FirstContainingUnique(text, et, o, c);
  }

  /** Outside every region, the result is (-1, -1). */
  lemma CommentAroundOutsideRegions(text: seq<string>, st: string, et: string, line: nat)
    requires line < |text|
    requires forall o: nat, c: nat :: !Region(text, st, et, line, o, c)
    ensures CommentAround(text, st, et, line) == (-1, -1)
  {
    RegionOrNone(text, st, et, line);
  }

  /** A line lies in at most one region. */
  lemma RegionUnique(text: seq<string>, st: string, et: string, line: nat, o: nat, c: nat, o2: nat, c2: nat)
    requires Region(text, st, et, line, o, c) && Region(text, st, et, line, o2, c2)
    ensures o == o2 && c == c2
  {
    CommentAroundInRegion(text, st, et, line, o, c);
    CommentAroundInRegion(text, st, et, line, o2, c2);
    LastContainingUnique(text, st, line + 1, o);
    LastContainingUnique(text, st, line + 1, o2);
    FirstContainingUnique(text, et, o, c);
    FirstContainingUnique(text, et, o2, c2);
  }

  /** Every line is in some region or outside all of them. */
  lemma RegionOrNone(text: seq<string>, st: string, et: string, line: nat)
    requires line < |text|
    ensures (exists o: nat, c: nat :: Region(text, st, et, line, o, c))
            || CommentAround(text, st, et, line) == (-1, -1)
  {
    var open := LastContaining(text, st, line + 1);
    if open > -1 {
      var close := FirstContaining(text, et, open);
      if open <= line <= close {
        LastContainingIsLast(text, st, line + 1);
        FirstContainingIsFirst(text, et, open);
        assert Region(text, st, et, line, open, close);
      }
    }
  }

  /** `checkForCodeComment` on a line of the document that lies in a region,
      read with tags deleted: the line before the region's opening line and
      its closing line, or -1 for the latter on the closing line itself. */
  lemma CodeCommentInRegion(g: Grammar, lines: seq<string>, line: nat, o: nat, c: nat)
    requires ValidGrammar(g) && line < |lines|
    requires Region(StrippedLines(g, lines), g.startTag, g.endTag, line, o, c)
    ensures CodeComment(g, lines, line) == (o - 1, if c == line then -1 else c)
  {
    CommentAroundInRegion(StrippedLines(g, lines), g.startTag, g.endTag, line, o, c);
  }

  /** `checkForCodeComment` on a line of the document that lies in no region
      is (-1, -1). */
  lemma CodeCommentOutsideRegions(g: Grammar, lines: seq<string>, line: nat)
    requires ValidGrammar(g) && line < |lines|
    requires forall o: nat, c: nat :: !Region(StrippedLines(g, lines), g.startTag, g.endTag, line, o, c)
    ensures CodeComment(g, lines, line) == (-1, -1)
  {
    CommentAroundOutsideRegions(StrippedLines(g, lines), g.startTag, g.endTag, line);
  }

  /** `computeSelectionAdapations` proposes a new start line exactly when the
      start line lies in a region it does not close and that does not open on
      the first line; the proposal is the line before the region. */
  lemma NewStartMeaning(text: seq<string>, st: string, et: string, startLine: nat, endLine: nat)
    requires startLine <= endLine < |text|
    ensures var r := Adaptations(text, st, et, startLine, endLine);
      && (r.0 != -1 <==> exists o: nat, c: nat :: Region(text, st, et, startLine, o, c) && c != startLine && o >= 1)
      && (forall o: nat, c: nat :: Region(text, st, et, startLine, o, c) && c != startLine && o >= 1 ==> r.0 == o - 1)
  {
    RegionOrNone(text, st, et, startLine);
    forall o: nat, c: nat | Region(text, st, et, startLine, o, c)
      ensures CommentAround(text, st, et, startLine) == (o - 1, if c == startLine then -1 else c)
    {
      CommentAroundInRegion(text, st, et, startLine, o, c);
    }
  }

  /** `computeSelectionAdapations` proposes a new end line exactly when the
      end line lies in a region it does not close and that does not open on
      the first line; the proposal is the region's closing line. */
  lemma NewEndMeaning(text: seq<string>, st: string, et: string, startLine: nat, endLine: nat)
    requires startLine <= endLine < |text|
    ensures var r := Adaptations(text, st, et, startLine, endLine);
      && (r.1 != -1 <==> exists o: nat, c: nat :: Region(text, st, et, endLine, o, c) && c != endLine && o >= 1)
      && (forall o: nat, c: nat :: Region(text, st, et, endLine, o, c) && c != endLine && o >= 1 ==> r.1 == c)
  {
    RegionOrNone(text, st, et, endLine);
    forall o: nat, c: nat | Region(text, st, et, endLine, o, c)
      ensures CommentAround(text, st, et, endLine) == (o - 1, if c == endLine then -1 else c)
    {
      CommentAroundInRegion(text, st, et, endLine, o, c);
    }
  }
}
