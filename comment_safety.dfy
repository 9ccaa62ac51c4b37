/**
 * Where `addTags` puts its tags relative to the comments of the document.
 * A boundary of the selection that lies inside a comment is moved out of it:
 * the start onto the line before the comment (or onto an empty line inserted
 * right before the comment when that line holds code), the end onto the
 * comment's closing line, where the closing delimiter ends the comment
 * before the tag. This holds when the comment opens after the first line and
 * the line before it lies in no comment itself. A start on the closing line
 * itself stays there, after the closing delimiter, or, when the line before
 * the comment holds code, moves onto an empty line inserted right after the
 * closing line. A comment that opens on the first line is not recognised,
 * and a selection inside it gets its tag inside the comment.
 */
module CommentSafety {
  import opened TagGrammar
  import opened CommentTags
  import opened CommentTagRegex
  import opened FileParser
  import opened CommentRegions
  import opened AddTagsScenarios
  import opened RemovalFacts

  // ---------------------------------------------------------------------
  // Regions of a document with an inserted empty line
  // ---------------------------------------------------------------------

  /** The index, in the document before an empty line was inserted at `pos`,
      of line `k` (other than `pos`) of the document after. */
  function Down(k: nat, pos: nat): nat
  {
    if k <= pos then k else k - 1
  }

  /** Tags are deleted line by line, so an inserted empty line stays empty
      and every other line is read as before. */
  lemma StrippedInsert(g: Grammar, lines: seq<string>, pos: nat)
    requires ValidGrammar(g) && pos <= |lines|
    ensures StrippedLines(g, InsertAt(lines, pos, "")) == InsertAt(StrippedLines(g, lines), pos, "")
  {
    var ins := InsertAt(lines, pos, "");
    var a, b := StrippedLines(g, ins), InsertAt(StrippedLines(g, lines), pos, "");
    forall k | 0 <= k < |a|
      ensures a[k] == b[k]
    {
      StrippedLineAt(g, ins, k);
      if k < pos {
        StrippedLineAt(g, lines, k);
      } else if k > pos {
        StrippedLineAt(g, lines, k - 1);
      } else {
        NothingAtEnd(g, AnyId, "");
      }
    }
  }

  /** A region of the text with an empty line inserted at `pos`, around a
      line other than the inserted one, is the same region of the text
      before: the empty line neither opens nor closes a comment. */
  lemma RegionAfterInsert(text: seq<string>, st: string, et: string, pos: nat, l: nat, o: nat, c: nat)
    requires |st| > 0 && |et| > 0 && pos <= |text| && l != pos
    requires Region(InsertAt(text, pos, ""), st, et, l, o, c)
    ensures o != pos && c != pos
    ensures Region(text, st, et, Down(l, pos), Down(o, pos), Down(c, pos))
  {
    var ins := InsertAt(text, pos, "");
    MissingCharNotContained("", st, 0);
    MissingCharNotContained("", et, 0);
    var l0, o0, c0 := Down(l, pos), Down(o, pos), Down(c, pos);
    assert ins[o] == text[o0] && ins[c] == text[c0];
    forall k | o0 < k <= l0
      ensures !Contains(text[k], st)
    {
      var k1 := if k < pos then k else k + 1;
      assert ins[k1] == text[k];
    }
    forall k | o0 <= k < c0
      ensures !Contains(text[k], et)
    {
      var k1 := if k < pos then k else k + 1;
      assert ins[k1] == text[k];
    }
  }

  /** A region around an empty line inserted at `pos` is, in the text before,
      a region around line `pos - 1` that does not close there. */
  lemma InsertedRegionBack(text: seq<string>, st: string, et: string, pos: nat, o: nat, c: nat)
    requires |st| > 0 && |et| > 0 && 1 <= pos <= |text|
    requires Region(InsertAt(text, pos, ""), st, et, pos, o, c)
    ensures o < pos < c
    ensures Region(text, st, et, pos - 1, o, c - 1)
  {
    var ins := InsertAt(text, pos, "");
    MissingCharNotContained("", st, 0);
    MissingCharNotContained("", et, 0);
    assert ins[o] == text[o] && ins[c] == text[c - 1];
    forall k | o < k <= pos - 1
      ensures !Contains(text[k], st)
    {
      assert ins[k] == text[k];
    }
    forall k | o <= k < c - 1
      ensures !Contains(text[k], et)
    {
      var k1 := if k < pos then k else k + 1;
      assert ins[k1] == text[k];
    }
  }

  /** An empty line inserted right after a line that lies in no region lies
      in no region either. */
  lemma InsertedLineOutside(text: seq<string>, st: string, et: string, prev: nat, pos: nat)
    requires |st| > 0 && |et| > 0 && pos == prev + 1 <= |text|
    requires forall o: nat, c: nat :: !Region(text, st, et, prev, o, c)
    ensures forall o: nat, c: nat :: !Region(InsertAt(text, pos, ""), st, et, pos, o, c)
  {
    forall o: nat, c: nat
      ensures !Region(InsertAt(text, pos, ""), st, et, pos, o, c)
    {
      if Region(InsertAt(text, pos, ""), st, et, pos, o, c) {
        InsertedRegionBack(text, st, et, pos, o, c);
        assert false;
      }
    }
  }

  /** A line outside every region stays outside every region when an empty
      line is inserted elsewhere. */
  lemma OutsideAfterInsert(text: seq<string>, st: string, et: string, pos: nat, l: nat)
    requires |st| > 0 && |et| > 0 && pos <= |text| && l != pos
    requires forall o: nat, c: nat :: !Region(text, st, et, Down(l, pos), o, c)
    ensures forall o: nat, c: nat :: !Region(InsertAt(text, pos, ""), st, et, l, o, c)
  {
    forall o: nat, c: nat
      ensures !Region(InsertAt(text, pos, ""), st, et, l, o, c)
    {
      if Region(InsertAt(text, pos, ""), st, et, l, o, c) {
        RegionAfterInsert(text, st, et, pos, l, o, c);
        assert false;
      }
    }
  }

  /** No comment continues past the closing line of a region. */
  lemma ClosingLineCloses(text: seq<string>, st: string, et: string, l: nat, o: nat, c: nat)
    requires Region(text, st, et, l, o, c)
    ensures CommentAround(text, st, et, c).1 == -1
  {
    RegionOrNone(text, st, et, c);
    if exists o2: nat, c2: nat :: Region(text, st, et, c, o2, c2) {
      var o2: nat, c2: nat :| Region(text, st, et, c, o2, c2);
      assert c2 == c;
      CommentAroundInRegion(text, st, et, c, o2, c2);
    } else {
      CommentAroundOutsideRegions(text, st, et, c);
    }
  }

  /** The same once an empty line is inserted at or before the region's
      closing line, which moves that line down by one. */
  lemma ClosingLineClosesAfterInsert(text: seq<string>, st: string, et: string, pos: nat, l: nat, o: nat, c: nat)
    requires |st| > 0 && |et| > 0 && pos <= c
    requires Region(text, st, et, l, o, c)
    ensures CommentAround(InsertAt(text, pos, ""), st, et, c + 1).1 == -1
  {
    var ins, moved := InsertAt(text, pos, ""), c + 1;
    RegionOrNone(ins, st, et, moved);
    if exists o2: nat, c2: nat :: Region(ins, st, et, moved, o2, c2) {
      var o2: nat, c2: nat :| Region(ins, st, et, moved, o2, c2);
      RegionAfterInsert(text, st, et, pos, moved, o2, c2);
      assert c2 == moved;
      CommentAroundInRegion(ins, st, et, moved, o2, c2);
    } else {
      CommentAroundOutsideRegions(ins, st, et, moved);
    }
  }

  // ---------------------------------------------------------------------
  // Where the tags go
  // ---------------------------------------------------------------------

  /** `line` lies in the comment that opens on line `o`, after the first
      line, and closes on line `c` (read with tags deleted). */
  ghost predicate InComment(g: Grammar, lines: seq<string>, line: nat, o: nat, c: nat)
    requires ValidGrammar(g)
  {
    1 <= o && Region(StrippedLines(g, lines), g.startTag, g.endTag, line, o, c)
  }

  /** The start boundary `line` either lies outside every comment or (when
      `inside`) in a comment opening on line `o` and closing on line `c`;
      when it lies before the closing line, the line before that comment lies
      outside every comment. */
  ghost predicate StartBoundary(g: Grammar, lines: seq<string>, line: nat, inside: bool, o: nat, c: nat)
    requires ValidGrammar(g)
  {
    line < |lines|
    && if inside then InComment(g, lines, line, o, c) && (line < c ==> OutsideComments(g, lines, o - 1))
       else OutsideComments(g, lines, line)
  }

  /** The end boundary `line` either lies outside every comment or (when
      `inside`) in a comment opening on line `o` and closing on line `c`. */
  ghost predicate EndBoundary(g: Grammar, lines: seq<string>, line: nat, inside: bool, o: nat, c: nat)
    requires ValidGrammar(g)
  {
    line < |lines|
    && if inside then InComment(g, lines, line, o, c) else OutsideComments(g, lines, line)
  }

  /** What `computeSelectionAdapations` reports for such boundaries: the line
      before the start's comment unless the start is that comment's closing
      line, and the end's closing line unless the end already is that line. */
  lemma AdaptedBoundaries(g: Grammar, lines: seq<string>, s: nat, e: nat,
                          startIn: bool, o1: nat, c1: nat, endIn: bool, o2: nat, c2: nat)
    requires ValidGrammar(g) && s <= e < |lines|
    requires StartBoundary(g, lines, s, startIn, o1, c1) && EndBoundary(g, lines, e, endIn, o2, c2)
    ensures SelectionAdaptations(g, lines, s, e)
            == (if startIn && s != c1 then o1 - 1 else -1, if endIn && e != c2 then c2 else -1)
  {
    var text := StrippedLines(g, lines);
    NewStartMeaning(text, g.startTag, g.endTag, s, e);
    NewEndMeaning(text, g.startTag, g.endTag, s, e);
    if startIn {
      forall o: nat, c: nat | Region(text, g.startTag, g.endTag, s, o, c)
        ensures o == o1 && c == c1
      {
        RegionUnique(text, g.startTag, g.endTag, s, o, c, o1, c1);
      }
    }
    if endIn {
      forall o: nat, c: nat | Region(text, g.startTag, g.endTag, e, o, c)
        ensures o == o2 && c == c2
      {
        RegionUnique(text, g.startTag, g.endTag, e, o, c, o2, c2);
      }
    }
  }

  /** FileParser.java:91-122 once the adaptations are known: the start goes
      to line `o1`, inserted empty after the non-blank line before the
      comment, or to that line itself when it is blank; the end goes to the
      closing line `c2`, shifted down by an inserted line. */
  lemma AdaptedPlacement(g: Grammar, lines: seq<string>, s: nat, e: nat,
                         startIn: bool, o1: nat, endIn: bool, c2: nat)
    requires ValidGrammar(g) && s <= e < |lines|
    requires startIn ==> 1 <= o1 <= s
    requires endIn ==> e <= c2 < |lines|
    requires SelectionAdaptations(g, lines, s, e)
             == (if startIn then o1 - 1 else -1, if endIn && e != c2 then c2 else -1)
    ensures var ins := startIn && !IsBlank(lines[o1 - 1]);
      AdaptSelection(g, lines, s, e)
      == Placement(if ins then InsertAt(lines, o1, "") else lines,
                   if ins then o1 else if startIn then o1 - 1 else s,
                   (if endIn then c2 else e) + (if ins then 1 else 0), ins, false)
  {
  }

  /** The end tightening step does not change a placement whose end has no
      comment continuing past it. */
  lemma TightenEndIdle(g: Grammar, p: Placement)
    requires ValidGrammar(g) && Placed(p)
    requires CodeComment(g, p.lines, p.end).1 == -1
    ensures TightenEnd(g, p) == p
  {
  }

  /** Neither tightening step changes a placement whose start lies in no
      comment and whose end has no comment continuing past it. */
  lemma TighteningIdle(g: Grammar, p: Placement)
    requires ValidGrammar(g) && Placed(p)
    requires CodeComment(g, p.lines, p.start).0 == -1 && CodeComment(g, p.lines, p.end).1 == -1
    ensures TightenEnd(g, TightenStart(g, p)) == p
  {
  }

  /** The start boundary after adaptation lies outside every comment, so the
      start is not tightened. */
  lemma AdaptedStartOutside(g: Grammar, lines: seq<string>, s: nat, startIn: bool, o1: nat, c1: nat, p: Placement)
    requires ValidGrammar(g) && StartBoundary(g, lines, s, startIn, o1, c1) && Placed(p)
    requires startIn ==> s < c1
    requires p.lines == if startIn && !IsBlank(lines[o1 - 1]) then InsertAt(lines, o1, "") else lines
    requires p.start == if startIn && !IsBlank(lines[o1 - 1]) then o1 else if startIn then o1 - 1 else s
    ensures OutsideComments(g, p.lines, p.start)
    ensures CodeComment(g, p.lines, p.start) == (-1, -1)
  {
    if startIn && !IsBlank(lines[o1 - 1]) {
      StrippedInsert(g, lines, o1);
      InsertedLineOutside(StrippedLines(g, lines), g.startTag, g.endTag, o1 - 1, o1);
    }
    CodeCommentOutsideRegions(g, p.lines, p.start);
  }

  /** The end boundary after adaptation lies outside every comment or on the
      closing line of the end's comment, with no comment continuing past it,
      so the end is not tightened. `ins` says whether an empty line was
      inserted at `pos`, which is at or before the original end. */
  lemma AdaptedEndCloses(g: Grammar, lines: seq<string>, e: nat, endIn: bool, o2: nat, c2: nat,
                         ins: bool, pos: nat, p: Placement)
    requires ValidGrammar(g) && EndBoundary(g, lines, e, endIn, o2, c2) && Placed(p)
    requires ins ==> 1 <= pos <= e
    requires p.lines == if ins then InsertAt(lines, pos, "") else lines
    requires p.end == (if endIn then c2 else e) + (if ins then 1 else 0)
    ensures p.lines[p.end] == lines[if endIn then c2 else e]
    ensures !endIn ==> OutsideComments(g, p.lines, p.end)
    ensures CodeComment(g, p.lines, p.end).1 == -1
  {
    if ins {
      InsertedEndCloses(g, lines, e, endIn, o2, c2, pos, p);
    } else if endIn {
      var text := StrippedLines(g, lines);
      ClosingLineCloses(text, g.startTag, g.endTag, e, o2, c2);
      assert CodeComment(g, p.lines, p.end) == CommentAround(text, g.startTag, g.endTag, c2);
    } else {
      CodeCommentOutsideRegions(g, p.lines, p.end);
    }
  }

  /** `AdaptedEndCloses` when an empty line was inserted at `pos`: the end
      boundary moved down with the line it was on. */
  lemma InsertedEndCloses(g: Grammar, lines: seq<string>, e: nat, endIn: bool, o2: nat, c2: nat,
                          pos: nat, p: Placement)
    requires ValidGrammar(g) && EndBoundary(g, lines, e, endIn, o2, c2) && Placed(p)
    requires 1 <= pos <= e
    requires p.lines == InsertAt(lines, pos, "")
    requires p.end == (if endIn then c2 else e) + 1
    ensures p.lines[p.end] == lines[if endIn then c2 else e]
    ensures !endIn ==> OutsideComments(g, p.lines, p.end)
    ensures CodeComment(g, p.lines, p.end).1 == -1
  {
    var text := StrippedLines(g, lines);
    StrippedInsert(g, lines, pos);
    if endIn {
      ClosingLineClosesAfterInsert(text, g.startTag, g.endTag, pos, e, o2, c2);
      assert CodeComment(g, p.lines, p.end) == CommentAround(InsertAt(text, pos, ""), g.startTag, g.endTag, c2 + 1);
    } else {
      assert Down(p.end, pos) == e;
      OutsideAfterInsert(text, g.startTag, g.endTag, pos, p.end);
      CodeCommentOutsideRegions(g, p.lines, p.end);
    }
  }

  /** An empty line inserted right after a line holding the closing
      delimiter lies in no region: that delimiter ends every comment that
      could reach the empty line. */
  lemma InsertedAfterClosingOutside(text: seq<string>, st: string, et: string, c: nat, pos: nat)
    requires |st| > 0 && |et| > 0 && c < |text| && Contains(text[c], et) && pos == c + 1
    ensures forall o2: nat, c2: nat :: !Region(InsertAt(text, pos, ""), st, et, pos, o2, c2)
  {
    forall o2: nat, c2: nat
      ensures !Region(InsertAt(text, pos, ""), st, et, pos, o2, c2)
    {
      if Region(InsertAt(text, pos, ""), st, et, pos, o2, c2) {
        InsertedRegionBack(text, st, et, pos, o2, c2);
        assert false;
      }
    }
  }

  /** FileParser.java:124-132 for a start on the closing line `s` of a comment
      opening on line `o1` after the first line: `checkForCodeComment`
      reports the line before the comment, so when that line holds code an
      empty line is inserted after the closing line and both boundaries move
      down onto it, where no comment reaches; otherwise the start stays on
      the closing line, past which no comment continues. */
  lemma ClosingStartTightened(g: Grammar, lines: seq<string>, s: nat, o1: nat, e: nat, p: Placement)
    requires ValidGrammar(g) && 1 <= o1 <= s <= e < |lines|
    requires CodeComment(g, lines, s) == (o1 - 1, -1)
    requires p == Placement(lines, s, e, false, false)
    ensures var ins := !IsBlank(lines[o1 - 1]);
      TightenStart(g, p) == if ins then Placement(InsertAt(lines, s + 1, ""), s + 1, e + 1, true, false) else p
  {
  }

  /** An empty line inserted right after a line `s` holding the closing
      delimiter lies in no comment. */
  lemma ClosingLineMoved(g: Grammar, lines: seq<string>, s: nat)
    requires ValidGrammar(g) && s < |lines| && Contains(StrippedLines(g, lines)[s], g.endTag)
    ensures OutsideComments(g, InsertAt(lines, s + 1, ""), s + 1)
    ensures CodeComment(g, InsertAt(lines, s + 1, ""), s + 1) == (-1, -1)
  {
    StrippedInsert(g, lines, s + 1);
    InsertedAfterClosingOutside(StrippedLines(g, lines), g.startTag, g.endTag, s, s + 1);
    CodeCommentOutsideRegions(g, InsertAt(lines, s + 1, ""), s + 1);
  }

  /** `addTags` ends with the tightened placement when the end tightening
      step leaves it unchanged. */
  lemma FinalPlacementSteps(g: Grammar, lines: seq<string>, startLine: nat, endLine: nat, p: Placement, q: Placement)
    requires ValidGrammar(g) && 1 <= startLine <= endLine <= |lines|
    requires p == AdaptSelection(g, lines, startLine - 1, endLine - 1)
    requires q == TightenStart(g, p) && TightenEnd(g, q) == q
    ensures FinalPlacement(g, lines, startLine, endLine) == q
  {
  }

  /** Comment safety of FileParser.java:61-144 for boundaries outside
      comments or in comments that open after the first line, with the start
      before its comment's closing line. A start inside a comment moves to
      the line before the comment, or to an empty line inserted right after
      that line when it holds code; an end inside a comment moves to its
      closing line. Afterwards the start lies outside every comment, the end
      lies outside every comment unless it is a closing line, and no comment
      continues past either. */
  lemma CommentSafePlacement(g: Grammar, lines: seq<string>, startLine: nat, endLine: nat,
                             startIn: bool, o1: nat, c1: nat, endIn: bool, o2: nat, c2: nat)
    requires ValidGrammar(g) && 1 <= startLine <= endLine <= |lines|
    requires StartBoundary(g, lines, startLine - 1, startIn, o1, c1) && (startIn ==> startLine - 1 < c1)
    requires EndBoundary(g, lines, endLine - 1, endIn, o2, c2)
    ensures var e := if endIn then c2 else endLine - 1;
      FinalPlacement(g, lines, startLine, endLine)
      == if startIn && !IsBlank(lines[o1 - 1]) then Placement(InsertAt(lines, o1, ""), o1, e + 1, true, false)
         else Placement(lines, if startIn then o1 - 1 else startLine - 1, e, false, false)
    ensures var q := FinalPlacement(g, lines, startLine, endLine);
      && OutsideComments(g, q.lines, q.start)
      && CodeComment(g, q.lines, q.start).1 == -1
      && q.lines[q.end] == lines[if endIn then c2 else endLine - 1]
      && (!endIn ==> OutsideComments(g, q.lines, q.end))
      && CodeComment(g, q.lines, q.end).1 == -1
  {
    var s0, e0 := startLine - 1, endLine - 1;
    AdaptedBoundaries(g, lines, s0, e0, startIn, o1, c1, endIn, o2, c2);
    var ins := startIn && !IsBlank(lines[o1 - 1]);
    AdaptedPlacement(g, lines, s0, e0, startIn, o1, endIn, c2);
    var p1 := AdaptSelection(g, lines, s0, e0);
    AdaptedStartOutside(g, lines, s0, startIn, o1, c1, p1);
    AdaptedEndCloses(g, lines, e0, endIn, o2, c2, ins, o1, p1);
    TighteningIdle(g, p1);
  }

  /** FileParser.java:91-122 for a start on the closing line `c1` of its
      comment: no new start is proposed and the end moves to the closing line
      of its comment. */
  lemma ClosingStartAdapted(g: Grammar, lines: seq<string>, s: nat, e: nat,
                            o1: nat, c1: nat, endIn: bool, o2: nat, c2: nat)
    requires ValidGrammar(g) && s == c1 && s <= e
    requires InComment(g, lines, s, o1, c1) && EndBoundary(g, lines, e, endIn, o2, c2)
    ensures AdaptSelection(g, lines, s, e) == Placement(lines, s, if endIn then c2 else e, false, false)
  {
    AdaptedBoundaries(g, lines, s, e, true, o1, c1, endIn, o2, c2);
    AdaptedPlacement(g, lines, s, e, false, o1, endIn, c2);
  }

  /** The end boundary after a start on the closing line `c1` has been
      tightened: it lies outside every comment or on the closing line of its
      comment, or (when the start moved onto an empty line inserted after
      `c1`) on that empty line, and no comment continues past it. */
  lemma ClosingEndCloses(g: Grammar, lines: seq<string>, s: nat, e: nat, endIn: bool, o2: nat, c2: nat,
                         o1: nat, c1: nat, p: Placement)
    requires ValidGrammar(g) && InComment(g, lines, s, o1, c1) && s == c1 && s <= e
    requires EndBoundary(g, lines, e, endIn, o2, c2) && Placed(p)
    requires var ins := !IsBlank(lines[o1 - 1]);
      && p.lines == (if ins then InsertAt(lines, s + 1, "") else lines)
      && p.start == (if ins then s + 1 else s) && p.startInserted == ins
      && p.end == (if endIn then c2 else e) + (if ins then 1 else 0)
      && (ins ==> CodeComment(g, p.lines, p.start).1 == -1)
    ensures p.lines[p.end] == (if p.startInserted && p.end == p.start then "" else lines[if endIn then c2 else e])
    ensures !endIn ==> OutsideComments(g, p.lines, p.end)
    ensures CodeComment(g, p.lines, p.end).1 == -1
  {
    var text := StrippedLines(g, lines);
    if endIn && e == s {
      RegionUnique(text, g.startTag, g.endTag, e, o1, c1, o2, c2);
    }
    if !endIn {
      assert e != s;
    }
    var last := if endIn then c2 else e;
    if IsBlank(lines[o1 - 1]) {
      AdaptedEndCloses(g, lines, e, endIn, o2, c2, false, 0, p);
    } else if last > s {
      AdaptedEndCloses(g, lines, e, endIn, o2, c2, true, s + 1, p);
    }
  }

  /** FileParser.java:61-144 for a start on the closing line `c1` of a
      comment that opens after the first line. No new start is proposed, so
      the start stays on the closing line, after the closing delimiter, unless
      the line before the comment holds code: then an empty line is inserted
      right after the closing line and both boundaries move down, the start
      onto the empty line. An end inside a comment moves to its closing line. */
  lemma ClosingStartPlacement(g: Grammar, lines: seq<string>, startLine: nat, endLine: nat,
                              o1: nat, c1: nat, endIn: bool, o2: nat, c2: nat)
    requires ValidGrammar(g) && 1 <= startLine <= endLine <= |lines|
    requires InComment(g, lines, startLine - 1, o1, c1) && startLine - 1 == c1
    requires EndBoundary(g, lines, endLine - 1, endIn, o2, c2)
    ensures var e := if endIn then c2 else endLine - 1;
      FinalPlacement(g, lines, startLine, endLine) == ClosingPlacement(lines, c1, IsBlank(lines[o1 - 1]), e)
  {
    var s0, e0 := startLine - 1, endLine - 1;
    var last := if endIn then c2 else e0;
    ClosingStartAdapted(g, lines, s0, e0, o1, c1, endIn, o2, c2);
    var p := Placement(lines, s0, last, false, false);
    CodeCommentInRegion(g, lines, s0, o1, c1);
    ClosingStartTightened(g, lines, s0, o1, last, p);
    if !IsBlank(lines[o1 - 1]) {
      ClosingLineMoved(g, lines, s0);
      var q := Placement(InsertAt(lines, s0 + 1, ""), s0 + 1, last + 1, true, false);
      ClosingEndCloses(g, lines, s0, e0, endIn, o2, c2, o1, c1, q);
      TightenEndIdle(g, q);
      FinalPlacementSteps(g, lines, startLine, endLine, p, q);
    } else {
      ClosingEndCloses(g, lines, s0, e0, endIn, o2, c2, o1, c1, p);
      TightenEndIdle(g, p);
      FinalPlacementSteps(g, lines, startLine, endLine, p, p);
    }
  }

  /** The placement `ClosingStartPlacement` describes is comment safe: no
      comment continues past either boundary, the start on an inserted empty
      line lies outside every comment, and the end lies outside every comment
      unless it is a closing line. */
  lemma ClosingStartSafe(g: Grammar, lines: seq<string>, s: nat, e: nat,
                         o1: nat, c1: nat, endIn: bool, o2: nat, c2: nat)
    requires ValidGrammar(g) && s <= e
    requires InComment(g, lines, s, o1, c1) && s == c1
    requires EndBoundary(g, lines, e, endIn, o2, c2)
    ensures var q := ClosingPlacement(lines, s, IsBlank(lines[o1 - 1]), if endIn then c2 else e);
      && CodeComment(g, q.lines, q.start).1 == -1
      && (q.startInserted ==> OutsideComments(g, q.lines, q.start))
      && q.lines[q.end] == (if q.startInserted && q.end == q.start then "" else lines[if endIn then c2 else e])
      && (!endIn ==> OutsideComments(g, q.lines, q.end))
      && CodeComment(g, q.lines, q.end).1 == -1
  {
    var last := if endIn then c2 else e;
    var q := ClosingPlacement(lines, s, IsBlank(lines[o1 - 1]), last);
    if IsBlank(lines[o1 - 1]) {
      assert q == Placement(lines, s, last, false, false);
      CodeCommentInRegion(g, lines, s, o1, c1);
      ClosingEndCloses(g, lines, s, e, endIn, o2, c2, o1, c1, q);
    } else {
      assert q == Placement(InsertAt(lines, s + 1, ""), s + 1, last + 1, true, false);
      ClosingLineMoved(g, lines, s);
      ClosingEndCloses(g, lines, s, e, endIn, o2, c2, o1, c1, q);
    }
  }

  /** The round trip around comments: removing the tags of one id from the
      document `addTags` wrote gives back the original document when the
      boundaries lie outside comments or in comments that open after the
      first line, the lines that get a tag hold no opening delimiter, the
      opening delimiter has a visible character (so a blank line holds
      none) and no line holds a tag yet. An empty line inserted for the start
      tag carries the line removal marker and goes with the tag. */
  lemma RemoveUndoesAddAroundComments(g: Grammar, pat: IdPattern, lines: seq<string>, tagId: string,
                                      startLine: nat, endLine: nat,
                                      startIn: bool, o1: nat, c1: nat, endIn: bool, o2: nat, c2: nat)
    requires WellFormed(g) && RemovesId(g, pat, tagId) && BorderFree(g.startTag) && !IsBlank(g.startTag)
    requires 1 <= startLine <= endLine <= |lines|
    requires StartBoundary(g, lines, startLine - 1, startIn, o1, c1)
    requires EndBoundary(g, lines, endLine - 1, endIn, o2, c2)
    requires (!startIn || startLine - 1 == c1) ==> !Contains(lines[startLine - 1], g.startTag)
    requires !Contains(lines[if endIn then c2 else endLine - 1], g.startTag)
    requires forall k :: 0 <= k < |lines| ==> Find(g, pat, lines[k], 0).None?
    ensures RemovedLines(g, pat, GroupIncrement(pat), TagsAdded(g, lines, tagId, startLine, endLine)) == lines
  {
    if startIn && startLine - 1 == c1 {
      RemoveUndoesAddAtClosingLine(g, pat, lines, tagId, startLine, endLine, o1, c1, endIn, o2, c2);
    } else {
      RemoveUndoesAddBeforeClosingLine(g, pat, lines, tagId, startLine, endLine, startIn, o1, c1, endIn, o2, c2);
    }
  }

  /** `RemoveUndoesAddAroundComments` for a start on its comment's closing line. */
  lemma RemoveUndoesAddAtClosingLine(g: Grammar, pat: IdPattern, lines: seq<string>, tagId: string,
                                     startLine: nat, endLine: nat, o1: nat, c1: nat, endIn: bool, o2: nat, c2: nat)
    requires WellFormed(g) && RemovesId(g, pat, tagId) && BorderFree(g.startTag)
    requires 1 <= startLine <= endLine <= |lines|
    requires InComment(g, lines, startLine - 1, o1, c1) && startLine - 1 == c1
    requires EndBoundary(g, lines, endLine - 1, endIn, o2, c2)
    requires !Contains(lines[c1], g.startTag)
    requires !Contains(lines[if endIn then c2 else endLine - 1], g.startTag)
    requires forall k :: 0 <= k < |lines| ==> Find(g, pat, lines[k], 0).None?
    ensures RemovedLines(g, pat, GroupIncrement(pat), TagsAdded(g, lines, tagId, startLine, endLine)) == lines
  {
    var e := if endIn then c2 else endLine - 1;
    var blank := IsBlank(lines[o1 - 1]);
    ClosingStartPlacement(g, lines, startLine, endLine, o1, c1, endIn, o2, c2);
    ClosingPlacementUndone(g, pat, lines, tagId, c1, blank, e);
    TagsAddedVia(g, lines, tagId, startLine, endLine, ClosingPlacement(lines, c1, blank, e));
  }

  /** Where `addTags` puts the tags when the start is on the closing line `c`
      of its comment: `blank` says whether the line before the comment is
      blank, `e` is the adapted end. */
  function ClosingPlacement(lines: seq<string>, c: nat, blank: bool, e: nat): (p: Placement)
    requires c <= e < |lines|
    ensures Placed(p) && p.startInserted == !blank && !p.endInserted
  {
    if blank then Placement(lines, c, e, false, false)
    else Placement(InsertAt(lines, c + 1, ""), c + 1, e + 1, true, false)
  }

  /** Removing the tags written for that placement gives back the document. */
  lemma ClosingPlacementUndone(g: Grammar, pat: IdPattern, lines: seq<string>, tagId: string,
                               c: nat, blank: bool, e: nat)
    requires WellFormed(g) && RemovesId(g, pat, tagId) && BorderFree(g.startTag)
    requires c <= e < |lines|
    requires !Contains(lines[c], g.startTag) && !Contains(lines[e], g.startTag)
    requires forall k :: 0 <= k < |lines| ==> Find(g, pat, lines[k], 0).None?
    ensures RemovedLines(g, pat, GroupIncrement(pat), ApplyTags(g, ClosingPlacement(lines, c, blank, e), tagId)) == lines
  {
    MissingCharNotContained("", g.startTag, 0);
    RemoveUndoesPlacement(g, pat, lines, tagId, ClosingPlacement(lines, c, blank, e));
  }

  /** `addTags` writes the tags of the placement it ends with. */
  lemma TagsAddedVia(g: Grammar, lines: seq<string>, tagId: string, startLine: nat, endLine: nat, pl: Placement)
    requires ValidGrammar(g) && 1 <= startLine <= endLine <= |lines|
    requires FinalPlacement(g, lines, startLine, endLine) == pl
    ensures TagsAdded(g, lines, tagId, startLine, endLine) == ApplyTags(g, pl, tagId)
  {
  }

  /** `RemoveUndoesAddAroundComments` for a start outside comments or before
      its comment's closing line. */
  lemma RemoveUndoesAddBeforeClosingLine(g: Grammar, pat: IdPattern, lines: seq<string>, tagId: string,
                                         startLine: nat, endLine: nat,
                                         startIn: bool, o1: nat, c1: nat, endIn: bool, o2: nat, c2: nat)
    requires WellFormed(g) && RemovesId(g, pat, tagId) && BorderFree(g.startTag) && !IsBlank(g.startTag)
    requires 1 <= startLine <= endLine <= |lines|
    requires StartBoundary(g, lines, startLine - 1, startIn, o1, c1) && (startIn ==> startLine - 1 < c1)
    requires EndBoundary(g, lines, endLine - 1, endIn, o2, c2)
    requires !startIn ==> !Contains(lines[startLine - 1], g.startTag)
    requires !Contains(lines[if endIn then c2 else endLine - 1], g.startTag)
    requires forall k :: 0 <= k < |lines| ==> Find(g, pat, lines[k], 0).None?
    ensures RemovedLines(g, pat, GroupIncrement(pat), TagsAdded(g, lines, tagId, startLine, endLine)) == lines
  {
    MissingCharNotContained("", g.startTag, 0);
    var e := if endIn then c2 else endLine - 1;
    if startIn && !IsBlank(lines[o1 - 1]) {
      var pl := Placement(InsertAt(lines, o1, ""), o1, e + 1, true, false);
      assert FinalPlacement(g, lines, startLine, endLine) == pl && pl.lines[pl.end] == lines[e] by {
        CommentSafePlacement(g, lines, startLine, endLine, startIn, o1, c1, endIn, o2, c2);
      }
      PlacementUndone(g, pat, lines, tagId, startLine, endLine, pl);
    } else {
      if startIn {
        BlankContainsNoVisible(lines[o1 - 1], g.startTag);
      }
      var pl := Placement(lines, if startIn then o1 - 1 else startLine - 1, e, false, false);
      assert FinalPlacement(g, lines, startLine, endLine) == pl by {
        CommentSafePlacement(g, lines, startLine, endLine, startIn, o1, c1, endIn, o2, c2);
      }
      PlacementUndone(g, pat, lines, tagId, startLine, endLine, pl);
    }
  }

  /** `RemoveUndoesPlacement` for the placement `addTags` ends with. */
  lemma PlacementUndone(g: Grammar, pat: IdPattern, lines: seq<string>, tagId: string,
                        startLine: nat, endLine: nat, pl: Placement)
    requires WellFormed(g) && RemovesId(g, pat, tagId) && BorderFree(g.startTag)
    requires 1 <= startLine <= endLine <= |lines| && FinalPlacement(g, lines, startLine, endLine) == pl
    requires Placed(pl) && !pl.endInserted && pl.start <= |lines|
    requires pl.lines == if pl.startInserted then InsertAt(lines, pl.start, "") else lines
    requires !Contains(pl.lines[pl.start], g.startTag) && !Contains(pl.lines[pl.end], g.startTag)
    requires forall k :: 0 <= k < |lines| ==> Find(g, pat, lines[k], 0).None?
    ensures RemovedLines(g, pat, GroupIncrement(pat), TagsAdded(g, lines, tagId, startLine, endLine)) == lines
  {
    RemoveUndoesPlacement(g, pat, lines, tagId, pl);
  }

  // ---------------------------------------------------------------------
  // A comment on the first line
  // ---------------------------------------------------------------------

  /** FileParser.java:91-144 for a one-line selection inside a comment that
      opens on the first line: `checkForCodeComment` reports -1 as the line
      before the comment, which `computeSelectionAdapations` reads as "no
      change", so the single-line tag is appended to the selected line inside
      the comment (when the closing line holds no `JavadocStart`). */
  lemma CommentOnFirstLineIgnored(g: Grammar, lines: seq<string>, tagId: string, line: nat, c: nat)
    requires ValidGrammar(g) && line < c < |lines|
    requires Region(StrippedLines(g, lines), g.startTag, g.endTag, line, 0, c)
    requires !LineContains(g, lines[c], JavadocStart)
    ensures FinalPlacement(g, lines, line + 1, line + 1) == Placement(lines, line, line, false, false)
    ensures TagsAdded(g, lines, tagId, line + 1, line + 1)
            == lines[line := lines[line] + Render(g, TagSpec(true, true, false), tagId)]
  {
    CodeCommentInRegion(g, lines, line, 0, c);
  }

  /** A line shorter than the two delimiters and two separators together
      holds no tag. */
  lemma ShortLineNoTag(g: Grammar, p: IdPattern, s: string)
    requires ValidGrammar(g) && |s| < |g.startTag| + 2 * |g.sep| + |g.endTag|
    ensures Find(g, p, s, 0).None?
    ensures ReplaceAllTags(g, p, s) == s
  {
    var r := Find(g, p, s, 0);
    if r.Some? {
      FindMatches(g, p, s, 0);
      MatchShape(g, p, s, r.value.start);
      assert false;
    }
    UntaggedLineUnchanged(g, p, s);
  }

  /** The delimiters in the lines of the smallest instance below. */
  lemma ExampleDelimiters()
    ensures Contains("/**", "/*") && !Contains("/**", "*/")
    ensures !Contains(" * foo", "/*") && !Contains(" * foo", "*/")
    ensures Contains(" */", "*/") && !Contains(" */", "/*") && !Contains(" */", JavadocStart)
  {
    assert LitAt("/**", 0, "/*");
    ContainsIff("/**", "/*");
    assert LitAt(" */", 1, "*/");
    ContainsIff(" */", "*/");
    MissingCharNotContained(" * foo", "/*", 0);
    MissingCharNotContained(" * foo", "*/", 1);
    MissingCharNotContained(" */", JavadocStart, 2);
    assert !Contains(" */", "/*") by {
      ContainsIff(" */", "/*");
      LitAtChars(" */", 0, "/*");
      LitAtChars(" */", 1, "/*");
    }
    assert !Contains("/**", "*/") by {
      ContainsIff("/**", "*/");
      LitAtChars("/**", 0, "*/");
      LitAtChars("/**", 1, "*/");
    }
  }

  /** The first three lines of the smallest instance below hold no tag. */
  lemma ExampleUntagged(g: Grammar, lines: seq<string>)
    requires ValidGrammar(g) && g.startTag == "/*" && g.endTag == "*/"
    requires lines == ["/**", " * foo", " */", "int x;"]
    ensures forall k :: 0 <= k < 3 ==> StrippedLines(g, lines)[k] == lines[k]
  {
    ExampleDelimiters();
    ShortLineNoTag(g, AnyId, lines[0]);
    ShortLineNoTag(g, AnyId, lines[2]);
    NoOpeningNoTag(g, AnyId, lines[1]);
    forall k | 0 <= k < 3
      ensures StrippedLines(g, lines)[k] == lines[k]
    {
      StrippedLineAt(g, lines, k);
    }
  }

  /** The smallest instance, with C-style delimiters: selecting line 2
      (1-based) of a documentation comment that opens on line 1 puts the tag
      on " * foo", inside the comment. */
  lemma FirstLineCommentExample(g: Grammar, tagId: string)
    requires ValidGrammar(g) && g.startTag == "/*" && g.endTag == "*/"
    ensures var lines := ["/**", " * foo", " */", "int x;"];
      && Region(StrippedLines(g, lines), g.startTag, g.endTag, 1, 0, 2)
      && TagsAdded(g, lines, tagId, 2, 2) == lines[1 := " * foo" + Render(g, TagSpec(true, true, false), tagId)]
  {
    var lines := ["/**", " * foo", " */", "int x;"];
    ExampleDelimiters();
    ExampleUntagged(g, lines);
    CommentOnFirstLineIgnored(g, lines, tagId, 1, 2);
  }
}
