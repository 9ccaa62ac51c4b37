/**
 * What `addTags` does to the document, whatever the comments around the
 * selection: it keeps every original line, in order, and only inserts empty
 * lines between them; it appends tag text to one or two lines; and a tag
 * carries the line removal marker exactly when the line it is appended to is
 * one of the inserted empty lines.
 */
module AddTagsFacts {
  import opened TagGrammar
  import opened CommentTags
  import opened FileParser

  /** The lines of `ext` whose `mask` entry is true, in order. */
  function Keep(ext: seq<string>, mask: seq<bool>): (r: seq<string>)
    requires |ext| == |mask|
    ensures |r| <= |ext|
  {
    if |ext| == 0 then []
    else Keep(ext[..|ext| - 1], mask[..|mask| - 1]) + (if mask[|mask| - 1] then [ext[|ext| - 1]] else [])
  }

  /** The lines kept by an all-true mask are all the lines. */
  lemma {:induction false} KeepAll(ext: seq<string>)
    ensures Keep(ext, seq(|ext|, _ => true)) == ext
  {
    if |ext| > 0 {
      assert seq(|ext|, _ => true)[..|ext| - 1] == seq(|ext| - 1, _ => true);
      KeepAll(ext[..|ext| - 1]);
    }
  }

  /** A line that is inserted and masked out does not change what is kept. */
  lemma {:induction false} KeepInsert(ext: seq<string>, mask: seq<bool>, pos: nat)
    requires |ext| == |mask| && pos <= |ext|
    ensures Keep(InsertAt(ext, pos, ""), InsertAt(mask, pos, false)) == Keep(ext, mask)
  {
    var ext2, mask2 := InsertAt(ext, pos, ""), InsertAt(mask, pos, false);
    if pos == |ext| {
      assert ext2[..|ext2| - 1] == ext && mask2[..|mask2| - 1] == mask;
    } else {
      var n := |ext| - 1;
      assert ext2[..|ext2| - 1] == InsertAt(ext[..n], pos, "");
      assert mask2[..|mask2| - 1] == InsertAt(mask[..n], pos, false);
      KeepInsert(ext[..n], mask[..n], pos);
    }
  }

  /** `mask` marks the original lines of `p.lines`: keeping them gives back
      `orig`, and every other line is empty. */
  ghost predicate Embeds(orig: seq<string>, ext: seq<string>, mask: seq<bool>)
  {
    && |mask| == |ext|
    && Keep(ext, mask) == orig
    && (forall q :: 0 <= q < |mask| && !mask[q] ==> ext[q] == "")
  }

  /** The invariant of the three placement steps: the original lines are
      embedded, the start line is an inserted one exactly when the start was
      flagged as inserted, and the end line (when it differs from the start
      line) likewise. */
  ghost predicate Tracks(orig: seq<string>, p: Placement, mask: seq<bool>)
  {
    && Embeds(orig, p.lines, mask)
    && Placed(p)
    && (p.startInserted <==> !mask[p.start])
    && (p.endInserted ==> !mask[p.end])
    && (p.start < p.end && !mask[p.end] ==> p.endInserted)
  }

  /** Inserting an empty line, masked out, keeps the embedding. */
  lemma InsertEmbeds(orig: seq<string>, ext: seq<string>, mask: seq<bool>, pos: nat)
    requires Embeds(orig, ext, mask) && pos <= |ext|
    ensures Embeds(orig, InsertAt(ext, pos, ""), InsertAt(mask, pos, false))
  {
    KeepInsert(ext, mask, pos);
  }

  /** The step of FileParser.java:124-132 that inserts a line keeps the invariant. */
  lemma StartInsertTracks(orig: seq<string>, p: Placement, mask: seq<bool>)
    requires Tracks(orig, p, mask)
    ensures Tracks(orig, Placement(InsertAt(p.lines, p.start + 1, ""), p.start + 1, p.end + 1, true, p.endInserted),
                   InsertAt(mask, p.start + 1, false))
  {
    InsertEmbeds(orig, p.lines, mask, p.start + 1);
  }

  /** The step of FileParser.java:134-144 that inserts a line keeps the invariant. */
  lemma EndInsertTracks(orig: seq<string>, p: Placement, mask: seq<bool>)
    requires Tracks(orig, p, mask)
    ensures Tracks(orig, Placement(InsertAt(p.lines, p.end + 1, ""), p.start, p.end + 1, p.startInserted, true),
                   InsertAt(mask, p.end + 1, false))
  {
    InsertEmbeds(orig, p.lines, mask, p.end + 1);
  }

  /** The two outcomes of FileParser.java:91-122: the lines unchanged, or one
      empty line inserted where the start now is, before the end. */
  lemma AdaptSelectionShape(g: Grammar, lines: seq<string>, startLine: nat, endLine: nat)
    requires ValidGrammar(g) && startLine <= endLine < |lines|
    ensures var p := AdaptSelection(g, lines, startLine, endLine);
      || (p.lines == lines && !p.startInserted && !p.endInserted)
      || (p.lines == InsertAt(lines, p.start, "") && p.start < p.end && p.startInserted && !p.endInserted)
  {
  }

  /** Either outcome of FileParser.java:91-122 establishes the invariant. */
  lemma AdaptedTracks(lines: seq<string>, p: Placement) returns (mask: seq<bool>)
    requires Placed(p) && !p.endInserted
    requires || (p.lines == lines && !p.startInserted)
             || (p.start <= |lines| && p.lines == InsertAt(lines, p.start, "") && p.start < p.end && p.startInserted)
    ensures Tracks(lines, p, mask)
  {
    mask := seq(|lines|, _ => true);
    KeepAll(lines);
    if p.startInserted {
      InsertEmbeds(lines, lines, mask, p.start);
      mask := InsertAt(mask, p.start, false);
    }
  }

  /** FileParser.java:91-122 establishes the invariant. */
  lemma AdaptSelectionTracks(g: Grammar, lines: seq<string>, startLine: nat, endLine: nat)
    returns (mask: seq<bool>)
    requires ValidGrammar(g) && startLine <= endLine < |lines|
    ensures Tracks(lines, AdaptSelection(g, lines, startLine, endLine), mask)
  {
    AdaptSelectionShape(g, lines, startLine, endLine);
    mask := AdaptedTracks(lines, AdaptSelection(g, lines, startLine, endLine));
  }

  /** The two outcomes of FileParser.java:124-132. */
  lemma TightenStartShape(g: Grammar, p: Placement)
    requires ValidGrammar(g) && Placed(p)
    ensures var q := TightenStart(g, p);
      q == p || q == Placement(InsertAt(p.lines, p.start + 1, ""), p.start + 1, p.end + 1, true, p.endInserted)
  {
  }

  /** The two outcomes of FileParser.java:134-144. */
  lemma TightenEndShape(g: Grammar, p: Placement)
    requires ValidGrammar(g) && Placed(p)
    ensures var q := TightenEnd(g, p);
      q == p || q == Placement(InsertAt(p.lines, p.end + 1, ""), p.start, p.end + 1, p.startInserted, true)
  {
  }

  /** Either outcome of FileParser.java:124-132 keeps the invariant. */
  lemma TightenedStartTracks(orig: seq<string>, p: Placement, q: Placement, mask: seq<bool>)
    returns (mask2: seq<bool>)
    requires Tracks(orig, p, mask)
    requires q == p || q == Placement(InsertAt(p.lines, p.start + 1, ""), p.start + 1, p.end + 1, true, p.endInserted)
    ensures Tracks(orig, q, mask2)
  {
    mask2 := mask;
    if q != p {
      StartInsertTracks(orig, p, mask);
      mask2 := InsertAt(mask, p.start + 1, false);
    }
  }

  /** Either outcome of FileParser.java:134-144 keeps the invariant. */
  lemma TightenedEndTracks(orig: seq<string>, p: Placement, q: Placement, mask: seq<bool>)
    returns (mask2: seq<bool>)
    requires Tracks(orig, p, mask)
    requires q == p || q == Placement(InsertAt(p.lines, p.end + 1, ""), p.start, p.end + 1, p.startInserted, true)
    ensures Tracks(orig, q, mask2)
  {
    mask2 := mask;
    if q != p {
      EndInsertTracks(orig, p, mask);
      mask2 := InsertAt(mask, p.end + 1, false);
    }
  }

  /** FileParser.java:124-144 keeps the invariant. */
  lemma TightenTracks(g: Grammar, orig: seq<string>, p: Placement, q: Placement, mask: seq<bool>)
    returns (mask2: seq<bool>)
    requires ValidGrammar(g) && Tracks(orig, p, mask)
    requires q == TightenEnd(g, TightenStart(g, p))
    ensures Tracks(orig, q, mask2)
  {
    TightenStartShape(g, p);
    mask2 := TightenedStartTracks(orig, p, TightenStart(g, p), mask);
    TightenEndShape(g, TightenStart(g, p));
    mask2 := TightenedEndTracks(orig, TightenStart(g, p), q, mask2);
  }

  /** What the invariant says about the tags' cleanup markers. */
  lemma TracksCleanup(orig: seq<string>, p: Placement, mask: seq<bool>)
    requires Tracks(orig, p, mask)
    ensures && Embeds(orig, p.lines, mask)
            && (p.start == p.end ==> (SingleLineTag(p).cleanup <==> !mask[p.start]))
            && (p.start < p.end ==> (StartTag(p).cleanup <==> !mask[p.start]))
            && (p.start < p.end ==> (EndTag(p).cleanup <==> !mask[p.end]))
  {
  }

  /** The invariant at the end of the three steps for the 0-based lines
      `startLine..endLine`, `p1` being the outcome of the first step and `q`
      that of the last, read as facts about the cleanup markers. */
  lemma FinalPlacementTracks(g: Grammar, lines: seq<string>, startLine: nat, endLine: nat, p1: Placement, q: Placement)
    returns (mask: seq<bool>)
    requires ValidGrammar(g) && startLine <= endLine < |lines|
    requires p1 == AdaptSelection(g, lines, startLine, endLine) && q == TightenEnd(g, TightenStart(g, p1))
    ensures Placed(q)
    ensures && Embeds(lines, q.lines, mask)
            && (q.start == q.end ==> (SingleLineTag(q).cleanup <==> !mask[q.start]))
            && (q.start < q.end ==> (StartTag(q).cleanup <==> !mask[q.start]))
            && (q.start < q.end ==> (EndTag(q).cleanup <==> !mask[q.end]))
  {
    mask := AdaptSelectionTracks(g, lines, startLine, endLine);
    mask := TightenTracks(g, lines, p1, q, mask);
    TracksCleanup(lines, q, mask);
  }

  /** `addTags` keeps every original line, in order, and inserts only empty
      lines (at most three); each tag carries the line removal marker exactly
      when its line is an inserted one. */
  lemma PlacementKeepsLines(g: Grammar, lines: seq<string>, startLine: nat, endLine: nat)
    requires ValidGrammar(g) && 1 <= startLine <= endLine <= |lines|
    ensures var p := FinalPlacement(g, lines, startLine, endLine);
      && |p.lines| <= |lines| + 3
      && exists mask :: Embeds(lines, p.lines, mask)
           && (p.start == p.end ==> (SingleLineTag(p).cleanup <==> !mask[p.start]))
           && (p.start < p.end ==> (StartTag(p).cleanup <==> !mask[p.start]))
           && (p.start < p.end ==> (EndTag(p).cleanup <==> !mask[p.end]))
  {
    var p := FinalPlacement(g, lines, startLine, endLine);
    var mask := FinalPlacementTracks(g, lines, startLine - 1, endLine - 1, AdaptSelection(g, lines, startLine - 1, endLine - 1), p);
    AddTagsGrowth(g, lines, startLine, endLine);
  }

  /** The tag text `addTags` appends: a single-line tag when the boundaries
      meet, otherwise a start tag and an end tag; no other line changes. */
  lemma ApplyTagsAppends(g: Grammar, p: Placement, tagId: string)
    requires Placed(p)
    ensures var r := ApplyTags(g, p, tagId);
      && |r| == |p.lines|
      && (forall q :: 0 <= q < |r| && q != p.start && q != p.end ==> r[q] == p.lines[q])
      && (p.start == p.end ==> r[p.start] == p.lines[p.start] + Render(g, SingleLineTag(p), tagId))
      && (p.start < p.end ==> r[p.start] == p.lines[p.start] + Render(g, StartTag(p), tagId))
      && (p.start < p.end ==> r[p.end] == p.lines[p.end] + Render(g, EndTag(p), tagId))
  {
  }
}
