/**
 * What `removeTags` and `clearAllTags` do to lines that `addTags` wrote:
 * a tag appended to a line is found where it was appended and deleted, the
 * line removal marker decides whether an emptied line is dropped, untagged
 * lines pass through, an inserted empty line goes with its tag, and the
 * document comes back as it was before the tags were added when the tagged
 * lines hold no opening comment delimiter and no line held a tag.
 */
module RemovalFacts {
  import opened TagGrammar
  import opened CommentTags
  import opened CommentTagRegex
  import opened TagRoundTrip
  import opened FileParser
  import opened AddTagsFacts
  import opened AddTagsScenarios

  /** The patterns a tag of id `tagId` is removed with: the any-id pattern,
      which needs an id it can match, or the literal pattern of that id. */
  predicate RemovesId(g: Grammar, p: IdPattern, tagId: string)
    requires |g.sep| > 0
  {
    (p == AnyId && ValidTagId(g, tagId)) || p == LiteralId(tagId)
  }

  /** `find` passes over positions where the pattern does not match. */
  lemma {:induction false} FindSkips(g: Grammar, p: IdPattern, s: string, from: nat, upto: nat)
    requires from <= upto <= |s|
    requires forall j :: from <= j < upto ==> MatchAt(g, p, s, j).None?
    ensures Find(g, p, s, from) == Find(g, p, s, upto)
    decreases upto - from
  {
    if from < upto {
      FindSkips(g, p, s, from + 1, upto);
    }
  }

  /** Nothing is found at the very end of a line. */
  lemma NothingAtEnd(g: Grammar, p: IdPattern, s: string)
    requires ValidGrammar(g)
    ensures Find(g, p, s, |s|).None?
    ensures RemoveAll(g, p, s, |s|) == ""
  {
    assert !LitAt(s, |s|, g.startTag);
  }

  /** A line with no occurrence of the opening delimiter holds no tag. */
  lemma NoOpeningNoTag(g: Grammar, p: IdPattern, line: string)
    requires ValidGrammar(g) && !Contains(line, g.startTag)
    ensures Find(g, p, line, 0).None?
    ensures ReplaceAllTags(g, p, line) == line
  {
    var r := Find(g, p, line, 0);
    if r.Some? {
      FindMatches(g, p, line, 0);
      MatchShape(g, p, line, r.value.start);
      ContainsIff(line, g.startTag);
      assert false;
    }
    UntaggedLineUnchanged(g, p, line);
  }

  /** In `x + tag`, where `x` holds no opening delimiter and the delimiter
      cannot overlap itself, the first match is the appended tag. */
  lemma FindAppendedTag(g: Grammar, p: IdPattern, x: string, t: TagSpec, tagId: string)
    requires WellFormed(g) && RemovesId(g, p, tagId)
    requires BorderFree(g.startTag) && !Contains(x, g.startTag)
    ensures Find(g, p, x + Render(g, t, tagId), 0) == Some(ExpectedMatch(g, |x|, t, tagId))
  {
    var tag := Render(g, t, tagId);
    var s := x + tag;
    var rest := tag[|g.startTag|..];
    assert tag == g.startTag + rest by {
      assert tag[..|g.startTag| + 1][..|g.startTag|] == g.startTag;
    }
    assert s == x + g.startTag + rest;
    forall j | 0 <= j < |x|
      ensures MatchAt(g, p, s, j).None?
    {
      if MatchAt(g, p, s, j).Some? {
        MatchShape(g, p, s, j);
        OccurrenceInsidePrefix(x, g.startTag, rest, j);
        assert false;
      }
    }
    FindSkips(g, p, s, 0, |x|);
    LitAtEnd(x, tag);
    if p == AnyId {
      RenderedTagMatchesAnyId(g, s, |x|, t, tagId);
    } else {
      RenderedTagMatchesLiteralId(g, s, |x|, t, tagId);
    }
  }

  /** `replaceAll` deletes an appended tag and nothing else. */
  lemma StripAppendedTag(g: Grammar, p: IdPattern, x: string, t: TagSpec, tagId: string)
    requires WellFormed(g) && RemovesId(g, p, tagId)
    requires BorderFree(g.startTag) && !Contains(x, g.startTag)
    ensures ReplaceAllTags(g, p, x + Render(g, t, tagId)) == x
  {
    var s := x + Render(g, t, tagId);
    FindAppendedTag(g, p, x, t, tagId);
    NothingAtEnd(g, p, s);
    assert s[0..|x|] == x;
  }

  /** A line that holds only a rendered tag is empty once its tags are
      deleted, so `lineContains` finds neither comment delimiter (nor any
      other non-empty string) in it. */
  lemma TagOnlyLine(g: Grammar, t: TagSpec, tagId: string, str: string)
    requires WellFormed(g) && ValidTagId(g, tagId) && BorderFree(g.startTag)
    requires |str| > 0
    ensures ReplaceAllTags(g, BuildAnyTagRegex(), Render(g, t, tagId)) == ""
    ensures !LineContains(g, Render(g, t, tagId), str)
    ensures !LineContains(g, Render(g, t, tagId), g.startTag) && !LineContains(g, Render(g, t, tagId), g.endTag)
  {
    assert "" + Render(g, t, tagId) == Render(g, t, tagId);
    assert !Contains("", g.startTag);
    StripAppendedTag(g, AnyId, "", t, tagId);
    assert !ContainsFrom("", str, 1);
    assert !ContainsFrom("", g.endTag, 1);
  }

  /** What removal does with a line `addTags` wrote: the appended tag is
      deleted, and the line is dropped exactly when the tag carries the line
      removal marker and nothing but blanks precedes it. */
  lemma TaggedLineRemoval(g: Grammar, p: IdPattern, x: string, t: TagSpec, tagId: string)
    requires WellFormed(g) && RemovesId(g, p, tagId)
    requires BorderFree(g.startTag) && !Contains(x, g.startTag)
    ensures LineAfterRemoval(g, p, GroupIncrement(p), x + Render(g, t, tagId))
            == if t.cleanup && IsBlank(x) then None else Some(x)
  {
    var s := x + Render(g, t, tagId);
    FindAppendedTag(g, p, x, t, tagId);
    StripAppendedTag(g, p, x, t, tagId);
    LitAtEnd(x, Render(g, t, tagId));
    CleanupGroupOfRenderedTag(g, p, s, |x|, t, tagId);
  }

  /** Removal over a document whose every line has a known outcome: line `q`
      of `doc` becomes line `q` of `ext` where `mask` is true, and is dropped
      where it is false. */
  lemma {:induction false} RemovedLinesKeep(g: Grammar, p: IdPattern, inc: nat, doc: seq<string>, ext: seq<string>, mask: seq<bool>)
    requires ValidGrammar(g) && |doc| == |ext| == |mask|
    requires forall q :: 0 <= q < |doc| ==> LineAfterRemoval(g, p, inc, doc[q]) == if mask[q] then Some(ext[q]) else None
    ensures RemovedLines(g, p, inc, doc) == Keep(ext, mask)
  {
    if |doc| > 0 {
      var n := |doc| - 1;
      RemovedLinesKeep(g, p, inc, doc[..n], ext[..n], mask[..n]);
      assert LineAfterRemoval(g, p, inc, doc[n]) == if mask[n] then Some(ext[n]) else None;
    }
  }

  /** `removeTags` keeps the surviving lines in their order: it writes the
      lines with their tags deleted, leaving out exactly the lines that
      `LineAfterRemoval` drops. */
  lemma RemovalKeepsOrder(g: Grammar, p: IdPattern, inc: nat, doc: seq<string>)
    requires ValidGrammar(g)
    ensures RemovedLines(g, p, inc, doc)
            == Keep(seq(|doc|, q requires 0 <= q < |doc| => ReplaceAllTags(g, p, doc[q])),
                    seq(|doc|, q requires 0 <= q < |doc| => LineAfterRemoval(g, p, inc, doc[q]).Some?))
  {
    var ext := seq(|doc|, q requires 0 <= q < |doc| => ReplaceAllTags(g, p, doc[q]));
    var mask := seq(|doc|, q requires 0 <= q < |doc| => LineAfterRemoval(g, p, inc, doc[q]).Some?);
    RemovedLinesKeep(g, p, inc, doc, ext, mask);
  }

  /** Lines without a tag pass through removal unchanged. */
  lemma {:induction false} UntaggedDocumentUnchanged(g: Grammar, p: IdPattern, inc: nat, lines: seq<string>)
    requires ValidGrammar(g)
    requires forall k :: 0 <= k < |lines| ==> Find(g, p, lines[k], 0).None?
    ensures RemovedLines(g, p, inc, lines) == lines
  {
    if |lines| > 0 {
      var n := |lines| - 1;
      UntaggedDocumentUnchanged(g, p, inc, lines[..n]);
      assert Find(g, p, lines[n], 0).None?;
      assert lines[..n] + [lines[n]] == lines;
    }
  }

  /** Each line of a document `addTags` tagged goes back to the line it was
      under removal of the tag's id, except an inserted empty line, which
      carries the line removal marker and is dropped with its tag. */
  lemma TaggedLineBack(g: Grammar, pat: IdPattern, tagId: string, pl: Placement, q: nat)
    requires WellFormed(g) && RemovesId(g, pat, tagId) && BorderFree(g.startTag)
    requires Placed(pl) && q < |pl.lines|
    requires pl.startInserted ==> pl.lines[pl.start] == ""
    requires pl.endInserted ==> pl.lines[pl.end] == ""
    requires !Contains(pl.lines[pl.start], g.startTag) && !Contains(pl.lines[pl.end], g.startTag)
    requires Find(g, pat, pl.lines[q], 0).None?
    ensures LineAfterRemoval(g, pat, GroupIncrement(pat), ApplyTags(g, pl, tagId)[q])
            == if (q == pl.start && pl.startInserted) || (q == pl.end && pl.endInserted) then None
               else Some(pl.lines[q])
  {
    ApplyTagsAppends(g, pl, tagId);
    if q == pl.start && q == pl.end {
      TaggedLineRemoval(g, pat, pl.lines[q], SingleLineTag(pl), tagId);
    } else if q == pl.start {
      TaggedLineRemoval(g, pat, pl.lines[q], StartTag(pl), tagId);
    } else if q == pl.end {
      TaggedLineRemoval(g, pat, pl.lines[q], EndTag(pl), tagId);
    }
  }

  /** Removing the tags of one id from a document tagged at placement `pl`
      gives back the document `pl` was computed from, when `pl` at most
      inserted an empty line for the start tag, the two tagged lines hold no
      opening delimiter and no line held a tag before. */
  lemma RemoveUndoesPlacement(g: Grammar, pat: IdPattern, lines: seq<string>, tagId: string, pl: Placement)
    requires WellFormed(g) && RemovesId(g, pat, tagId) && BorderFree(g.startTag)
    requires Placed(pl) && !pl.endInserted && pl.start <= |lines|
    requires pl.lines == if pl.startInserted then InsertAt(lines, pl.start, "") else lines
    requires !Contains(pl.lines[pl.start], g.startTag) && !Contains(pl.lines[pl.end], g.startTag)
    requires forall k :: 0 <= k < |lines| ==> Find(g, pat, lines[k], 0).None?
    ensures RemovedLines(g, pat, GroupIncrement(pat), ApplyTags(g, pl, tagId)) == lines
  {
    var tagged := ApplyTags(g, pl, tagId);
    var trues := seq(|lines|, _ => true);
    var mask := if pl.startInserted then InsertAt(trues, pl.start, false) else trues;
    forall q | 0 <= q < |tagged|
      ensures LineAfterRemoval(g, pat, GroupIncrement(pat), tagged[q]) == if mask[q] then Some(pl.lines[q]) else None
    {
      if pl.startInserted && q == pl.start {
        MissingCharNotContained("", g.startTag, 0);
        NoOpeningNoTag(g, pat, "");
      } else if pl.startInserted && q > pl.start {
        assert pl.lines[q] == lines[q - 1];
      } else {
        assert pl.lines[q] == lines[q];
      }
      TaggedLineBack(g, pat, tagId, pl, q);
    }
    RemovedLinesKeep(g, pat, GroupIncrement(pat), tagged, pl.lines, mask);
    if pl.startInserted {
      KeepInsert(lines, trues, pl.start);
    }
    KeepAll(lines);
  }

  /** Removing the tags of one id from the document `addTags` wrote for that
      id gives back the original document, when the selection lies outside
      every comment, the two lines that get a tag hold no opening delimiter
      and no line holds a tag yet. With the literal pattern this is
      `removeTags(tagId)`, with the any-id pattern `clearAllTags()`. */
  lemma RemoveUndoesAdd(g: Grammar, pat: IdPattern, lines: seq<string>, tagId: string, startLine: nat, endLine: nat)
    requires WellFormed(g) && RemovesId(g, pat, tagId) && BorderFree(g.startTag)
    requires 1 <= startLine <= endLine <= |lines|
    requires OutsideComments(g, lines, startLine - 1) && OutsideComments(g, lines, endLine - 1)
    requires !Contains(lines[startLine - 1], g.startTag) && !Contains(lines[endLine - 1], g.startTag)
    requires forall k :: 0 <= k < |lines| ==> Find(g, pat, lines[k], 0).None?
    ensures RemovedLines(g, pat, GroupIncrement(pat), TagsAdded(g, lines, tagId, startLine, endLine)) == lines
  {
    OutsideCommentsPlacement(g, lines, startLine, endLine);
    RemoveUndoesPlacement(g, pat, lines, tagId, Placement(lines, startLine - 1, endLine - 1, false, false));
  }

  /** FileParserTest.java:91-177, round trip: removing the tags that the
      selections reaching into the documentation comment got gives back the
      fixture, when the opening delimiter has a visible character (so the
      blank line before the comment holds none), the closing line holds no
      opening delimiter and no line holds a tag yet. */
  lemma DocCommentRoundTrip(g: Grammar, pat: IdPattern, lines: seq<string>, tagId: string, startLine: nat, endLine: nat)
    requires WellFormed(g) && RemovesId(g, pat, tagId) && BorderFree(g.startTag) && !IsBlank(g.startTag)
    requires DocCommentFixture(g, lines)
    requires (startLine, endLine) in {(18, 19), (15, 17), (17, 18)}
    requires !Contains(lines[18], g.startTag)
    requires forall k :: 0 <= k < |lines| ==> Find(g, pat, lines[k], 0).None?
    ensures RemovedLines(g, pat, GroupIncrement(pat), TagsAdded(g, lines, tagId, startLine, endLine)) == lines
  {
    DocCommentScenario(g, lines, tagId, startLine, endLine);
    BlankContainsNoVisible(lines[14], g.startTag);
    RemoveUndoesPlacement(g, pat, lines, tagId, Placement(lines, 14, 18, false, false));
  }

  /** The round trip for a document without comments: every line is outside
      every comment and holds no tag. */
  lemma RemoveUndoesAddWithoutComments(g: Grammar, pat: IdPattern, lines: seq<string>, tagId: string, startLine: nat, endLine: nat)
    requires WellFormed(g) && RemovesId(g, pat, tagId) && BorderFree(g.startTag)
    requires 1 <= startLine <= endLine <= |lines|
    requires forall k :: 0 <= k < |lines| ==> !Contains(lines[k], g.startTag)
    ensures RemovedLines(g, pat, GroupIncrement(pat), TagsAdded(g, lines, tagId, startLine, endLine)) == lines
  {
    NoOpeningOutside(g, lines, startLine - 1);
    NoOpeningOutside(g, lines, endLine - 1);
    forall k | 0 <= k < |lines|
      ensures Find(g, pat, lines[k], 0).None?
    {
      NoOpeningNoTag(g, pat, lines[k]);
    }
    RemoveUndoesAdd(g, pat, lines, tagId, startLine, endLine);
  }
}
