/**
 * What `addTags` writes in the situations its tests exercise: a selection
 * whose boundaries lie outside every comment gets its tags appended to the
 * selected lines, and a selection that reaches into a documentation comment
 * is widened to the blank line before the comment and the comment's closing
 * line.
 */
module AddTagsScenarios {
  import opened TagGrammar
  import opened CommentTags
  import opened CommentTagRegex
  import opened FileParser
  import opened CommentRegions

  /** `line` of the document lies in no comment region. */
  ghost predicate OutsideComments(g: Grammar, lines: seq<string>, line: nat)
    requires ValidGrammar(g) && line < |lines|
  {
    forall o: nat, c: nat :: !Region(StrippedLines(g, lines), g.startTag, g.endTag, line, o, c)
  }

  /** A document none of whose lines contains the opening delimiter has no
      comment regions. */
  lemma NoOpeningOutside(g: Grammar, lines: seq<string>, line: nat)
    requires ValidGrammar(g) && line < |lines|
    requires forall k :: 0 <= k < |lines| ==> !Contains(lines[k], g.startTag)
    ensures OutsideComments(g, lines, line)
  {
    var text := StrippedLines(g, lines);
    forall o: nat, c: nat
      ensures !Region(text, g.startTag, g.endTag, line, o, c)
    {
      if o < |lines| {
        StrippedLineAt(g, lines, o);
        var r := Find(g, AnyId, lines[o], 0);
        if r.Some? {
          FindMatches(g, AnyId, lines[o], 0);
          MatchShape(g, AnyId, lines[o], r.value.start);
          ContainsIff(lines[o], g.startTag);
          assert false;
        }
        UntaggedLineUnchanged(g, AnyId, lines[o]);
      }
    }
  }

  /** With both boundaries outside every comment, no step of `addTags` moves
      a boundary or inserts a line. */
  lemma OutsideCommentsPlacement(g: Grammar, lines: seq<string>, startLine: nat, endLine: nat)
    requires ValidGrammar(g) && 1 <= startLine <= endLine <= |lines|
    requires OutsideComments(g, lines, startLine - 1) && OutsideComments(g, lines, endLine - 1)
    ensures FinalPlacement(g, lines, startLine, endLine) == Placement(lines, startLine - 1, endLine - 1, false, false)
  {
    var text := StrippedLines(g, lines);
    CommentAroundOutsideRegions(text, g.startTag, g.endTag, startLine - 1);
    CommentAroundOutsideRegions(text, g.startTag, g.endTag, endLine - 1);
  }

  /** FileParserTest.java:33-82: outside comments, a one-line selection gets
      a single-line tag and a longer one a start and an end tag, none of them
      with the line removal marker, and no other line changes. */
  lemma AddTagsOutsideComments(g: Grammar, lines: seq<string>, tagId: string, startLine: nat, endLine: nat)
    requires ValidGrammar(g) && 1 <= startLine <= endLine <= |lines|
    requires OutsideComments(g, lines, startLine - 1) && OutsideComments(g, lines, endLine - 1)
    ensures TagsAdded(g, lines, tagId, startLine, endLine)
            == if startLine == endLine then
                 lines[startLine - 1 := lines[startLine - 1] + Render(g, TagSpec(true, true, false), tagId)]
               else
                 lines[endLine - 1 := lines[endLine - 1] + Render(g, TagSpec(false, true, false), tagId)]
                      [startLine - 1 := lines[startLine - 1] + Render(g, TagSpec(true, false, false), tagId)]
  {
    OutsideCommentsPlacement(g, lines, startLine, endLine);
  }

  /** The fixture of FileParserTest.java:91-177, 0-based: a blank line 14
      outside every comment, then a documentation comment opening on line 15
      and closing on line 18. */
  ghost predicate DocCommentFixture(g: Grammar, lines: seq<string>)
    requires ValidGrammar(g)
  {
    && |lines| >= 19
    && IsBlank(lines[14]) && OutsideComments(g, lines, 14)
    && LineContains(g, lines[15], g.startTag)
    && (forall k :: 16 <= k <= 18 ==> !LineContains(g, lines[k], g.startTag))
    && LineContains(g, lines[18], g.endTag)
    && (forall k :: 15 <= k <= 17 ==> !LineContains(g, lines[k], g.endTag))
  }

  /** `checkForCodeComment` on the fixture: lines 16 to 18 lie in the comment
      opening after line 14 and closing on line 18. */
  lemma DocCommentRegions(g: Grammar, lines: seq<string>)
    requires ValidGrammar(g) && DocCommentFixture(g, lines)
    ensures CodeComment(g, lines, 14) == (-1, -1)
    ensures CodeComment(g, lines, 16) == (14, 18)
    ensures CodeComment(g, lines, 17) == (14, 18)
    ensures CodeComment(g, lines, 18) == (14, -1)
  {
    var text := StrippedLines(g, lines);
    forall k | 15 <= k <= 18
      ensures Contains(text[k], g.startTag) == LineContains(g, lines[k], g.startTag)
      ensures Contains(text[k], g.endTag) == LineContains(g, lines[k], g.endTag)
    {
      LineContainsStripped(g, lines, k, g.startTag);
      LineContainsStripped(g, lines, k, g.endTag);
    }
    CommentAroundOutsideRegions(text, g.startTag, g.endTag, 14);
    CommentAroundInRegion(text, g.startTag, g.endTag, 16, 15, 18);
    CommentAroundInRegion(text, g.startTag, g.endTag, 17, 15, 18);
    CommentAroundInRegion(text, g.startTag, g.endTag, 18, 15, 18);
  }

  /** FileParserTest.java:91-177: the selections 18-19, 15-17 and 17-18
      (1-based) each reach into the documentation comment; `addTags` puts the
      start tag on the blank line before the comment and the end tag on its
      closing line, inserts no line and leaves every other line as it was. */
  lemma DocCommentScenario(g: Grammar, lines: seq<string>, tagId: string, startLine: nat, endLine: nat)
    requires ValidGrammar(g) && DocCommentFixture(g, lines)
    requires (startLine, endLine) in {(18, 19), (15, 17), (17, 18)}
    ensures FinalPlacement(g, lines, startLine, endLine) == Placement(lines, 14, 18, false, false)
    ensures TagsAdded(g, lines, tagId, startLine, endLine)
            == lines[18 := lines[18] + Render(g, TagSpec(false, true, false), tagId)]
                    [14 := lines[14] + Render(g, TagSpec(true, false, false), tagId)]
  {
    DocCommentRegions(g, lines);
  }
}
