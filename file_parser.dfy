/**
 * FileParser: the line engine that writes AgileReview tags into a document
 * and strips them out again. The document is the list of its lines; reading
 * and writing the file are left to the caller, so every operation takes the
 * lines and returns the new lines.
 *
 * Line numbers passed to `AddTags` are 1-based, as in the public API; all
 * other line numbers are 0-based indices into the list, and -1 stands for
 * "none", as in the source's `int` results.
 */
module FileParser {
  import opened TagGrammar
  import opened CommentTags
  import opened CommentTagRegex

  /** The opening of a documentation comment, which `addTags` looks for
      literally, whatever the file's comment delimiters are. */
  const JavadocStart := "/**"

  /** `lineContains`: whether `line` contains `str` once every AgileReview tag
      (any id) has been deleted from it. */
  predicate LineContains(g: Grammar, line: string, str: string)
    requires ValidGrammar(g)
  {
    Contains(ReplaceAllTags(g, BuildAnyTagRegex(), line), str)
  }

  // ---------------------------------------------------------------------
  // Comment regions
  // ---------------------------------------------------------------------

  /** The document as `lineContains` sees it: every line with its tags
      deleted, so that `LineContains(g, lines[k], t)` is `Contains(text[k], t)`. */
  function StrippedLines(g: Grammar, lines: seq<string>): (text: seq<string>)
    requires ValidGrammar(g)
    ensures |text| == |lines|
  {
    if |lines| == 0 then []
    else StrippedLines(g, lines[..|lines| - 1]) + [ReplaceAllTags(g, BuildAnyTagRegex(), lines[|lines| - 1])]
  }

  lemma {:induction false} StrippedLineAt(g: Grammar, lines: seq<string>, k: nat)
    requires ValidGrammar(g) && k < |lines|
    ensures StrippedLines(g, lines)[k] == ReplaceAllTags(g, BuildAnyTagRegex(), lines[k])
  {
    if k < |lines| - 1 {
      StrippedLineAt(g, lines[..|lines| - 1], k);
    }
  }

  /** `lineContains` on line `k` is `Contains` on line `k` of the stripped text. */
  lemma LineContainsStripped(g: Grammar, lines: seq<string>, k: nat, t: string)
    requires ValidGrammar(g) && k < |lines|
    ensures LineContains(g, lines[k], t) == Contains(StrippedLines(g, lines)[k], t)
  {
    StrippedLineAt(g, lines, k);
  }

  /** The last line before line `n` of `text` that contains `t`, or -1. */
  function LastContaining(text: seq<string>, t: string, n: nat): (r: int)
    requires n <= |text|
    ensures -1 <= r < n
    ensures r >= 0 ==> Contains(text[r], t)
  {
    if n == 0 then -1
    else if Contains(text[n - 1], t) then n - 1
    else LastContaining(text, t, n - 1)
  }

  /** No line after the one `LastContaining` finds, and before `n`, contains
      `t`; so it is the last one. */
  lemma {:induction false} LastContainingIsLast(text: seq<string>, t: string, n: nat)
    requires n <= |text|
    ensures forall k :: LastContaining(text, t, n) < k < n ==> !Contains(text[k], t)
  {
    if n > 0 && !Contains(text[n - 1], t) {
      LastContainingIsLast(text, t, n - 1);
    }
  }

  /** The first line from line `from` on of `text` that contains `t`, or -1. */
  function FirstContaining(text: seq<string>, t: string, from: nat): (r: int)
    requires from <= |text|
    decreases |text| - from
    ensures r == -1 || from <= r < |text|
    ensures r >= 0 ==> Contains(text[r], t)
  {
    if from == |text| then -1
    else if Contains(text[from], t) then from
    else FirstContaining(text, t, from + 1)
  }

  /** No line from `from` on and before the one `FirstContaining` finds (before
      the end when it finds none) contains `t`; so it is the first one. */
  lemma {:induction false} FirstContainingIsFirst(text: seq<string>, t: string, from: nat)
    requires from <= |text|
    decreases |text| - from
    ensures var r := FirstContaining(text, t, from);
      forall k :: from <= k < |text| && (r == -1 || k < r) ==> !Contains(text[k], t)
  {
    if from < |text| && !Contains(text[from], t) {
      FirstContainingIsFirst(text, t, from + 1);
    }
  }

  /** What `checkForCodeComment` computes for `line` of the tag-free `text`:
      when `line` lies between the last opening delimiter at or before it and
      the first closing delimiter from there on, the line before the opening
      one and the closing line (-1 when that is `line` itself); otherwise
      (-1, -1). */
  function CommentAround(text: seq<string>, startTag: string, endTag: string, line: nat): (r: (int, int))
    requires line < |text|
    ensures -1 <= r.0 < line
    ensures r.1 == -1 || line < r.1 < |text|
  {
    var open := LastContaining(text, startTag, line + 1);
    var close := if open > -1 then FirstContaining(text, endTag, open) else -1;
    if open <= line <= close then (open - 1, if close == line then -1 else close)
    else (-1, -1)
  }

  /** `checkForCodeComment(lines, line)`. */
  function CodeComment(g: Grammar, lines: seq<string>, line: nat): (r: (int, int))
    requires ValidGrammar(g) && line < |lines|
    ensures -1 <= r.0 < line
    ensures r.1 == -1 || line < r.1 < |lines|
  {
    CommentAround(StrippedLines(g, lines), g.startTag, g.endTag, line)
  }

  /** The first loop of `checkForCodeComment`: lines `0..n-1` scanned
      forward, remembering the last one that contains `t`. */
  method ScanForOpening(g: Grammar, lines: seq<string>, t: string, n: int) returns (openTagLine: int)
    requires ValidGrammar(g) && 0 <= n <= |lines|
    ensures openTagLine == LastContaining(StrippedLines(g, lines), t, n)
  {
    openTagLine := -1;
    for i := 0 to n
      invariant openTagLine == LastContaining(StrippedLines(g, lines), t, i)
    {
      LineContainsStripped(g, lines, i, t);
      if LineContains(g, lines[i], t) {
        openTagLine := i;
      }
    }
  }

  /** The second loop of `checkForCodeComment`: lines from `from` on scanned
      until the first one that contains `t`. */
  method ScanForClosing(g: Grammar, lines: seq<string>, t: string, from: int) returns (closeTagLine: int)
    requires ValidGrammar(g) && 0 <= from <= |lines|
    ensures closeTagLine == FirstContaining(StrippedLines(g, lines), t, from)
  {
    closeTagLine := -1;
    for i := from to |lines|
      invariant closeTagLine == -1
      invariant FirstContaining(StrippedLines(g, lines), t, from) == FirstContaining(StrippedLines(g, lines), t, i)
    {
      LineContainsStripped(g, lines, i, t);
      if LineContains(g, lines[i], t) {
        closeTagLine := i;
        break;
      }
    }
  }

  /** `checkForCodeComment`: a forward scan for the opening delimiter, then a
      scan for the closing one that stops at the first hit. */
  method CheckForCodeComment(g: Grammar, lines: seq<string>, line: int) returns (result: (int, int))
    requires ValidGrammar(g) && 0 <= line < |lines|
    ensures result == CodeComment(g, lines, line)
  {
    var openTagLine := ScanForOpening(g, lines, g.startTag, line + 1);
    var closeTagLine := -1;
    if openTagLine > -1 {
      closeTagLine := ScanForClosing(g, lines, g.endTag, openTagLine);
    }
    var r0, r1 := -1, -1;
    if openTagLine <= line && line <= closeTagLine {
      r0 := openTagLine - 1;
      if !(closeTagLine == line) {
        r1 := closeTagLine;
      }
    }
    result := (r0, r1);
  }

  /** What `computeSelectionAdapations` computes on the tag-free `text`: a
      new start line (the line before the comment holding the start line)
      unless the start line is the comment's closing line, and a new end line
      (the comment's closing line) unless the end line is already the closing
      line; -1 for no change. */
  function Adaptations(text: seq<string>, startTag: string, endTag: string, startLine: nat, endLine: nat)
    : (r: (int, int))
    requires startLine <= endLine < |text|
    ensures r.0 == -1 || 0 <= r.0 < startLine
    ensures r.1 == -1 || endLine < r.1 < |text|
  {
    var s := CommentAround(text, startTag, endTag, startLine);
    var e := CommentAround(text, startTag, endTag, endLine);
    (if s.0 != -1 && s.1 != -1 && s.0 != startLine then s.0 else -1,
     if e.0 != -1 && e.1 != -1 && e.1 != endLine then e.1 else -1)
  }

  /** `computeSelectionAdapations(startLine, endLine)` on the document. */
  function SelectionAdaptations(g: Grammar, lines: seq<string>, startLine: nat, endLine: nat): (r: (int, int))
    requires ValidGrammar(g) && startLine <= endLine < |lines|
    ensures r.0 == -1 || 0 <= r.0 < startLine
    ensures r.1 == -1 || endLine < r.1 < |lines|
  {
    Adaptations(StrippedLines(g, lines), g.startTag, g.endTag, startLine, endLine)
  }

  /** `computeSelectionAdapations`. */
  method ComputeSelectionAdaptations(g: Grammar, lines: seq<string>, startLine: int, endLine: int)
    returns (result: (int, int))
    requires ValidGrammar(g) && 0 <= startLine <= endLine < |lines|
    ensures result == SelectionAdaptations(g, lines, startLine, endLine)
  {
    var r0, r1 := -1, -1;
    var startLineAdaptions := CheckForCodeComment(g, lines, startLine);
    var endLineAdaptions := CheckForCodeComment(g, lines, endLine);
    if startLineAdaptions.0 != -1 && startLineAdaptions.1 != -1 && startLineAdaptions.0 != startLine {
      r0 := startLineAdaptions.0;
    }
    if endLineAdaptions.0 != -1 && endLineAdaptions.1 != -1 && endLineAdaptions.1 != endLine {
      r1 := endLineAdaptions.1;
    }
    result := (r0, r1);
  }

  // ---------------------------------------------------------------------
  // Adding tags
  // ---------------------------------------------------------------------

  /** `List.add(i, x)`. */
  function InsertAt<T>(xs: seq<T>, i: nat, x: T): (r: seq<T>)
    requires i <= |xs|
    ensures |r| == |xs| + 1 && r[i] == x
    ensures forall k :: 0 <= k < i ==> r[k] == xs[k]
    ensures forall k :: i < k < |r| ==> r[k] == xs[k - 1]
  {
    xs[..i] + [x] + xs[i..]
  }

  /** `List.remove(i)`, as far as the list is concerned. */
  function RemoveAt(xs: seq<string>, i: nat): (r: seq<string>)
    requires i < |xs|
    ensures |r| == |xs| - 1
    ensures forall k :: 0 <= k < i ==> r[k] == xs[k]
    ensures forall k :: i <= k < |r| ==> r[k] == xs[k + 1]
  {
    xs[..i] + xs[i + 1..]
  }

  /** The state `addTags` threads through its steps: the lines, the 0-based
      start and end line, and whether an empty line was inserted for the
      start or for the end tag. */
  datatype Placement = Placement(lines: seq<string>, start: nat, end: nat, startInserted: bool, endInserted: bool)

  predicate Placed(p: Placement)
  {
    p.start <= p.end < |p.lines|
  }

  /** FileParser.java:91-122: move a boundary that lies inside a comment
      outside of it. The start goes to the line before the comment, or to a
      new empty line inserted just before the comment when that line holds
      code; the end goes to the comment's closing line. */
  function AdaptSelection(g: Grammar, lines: seq<string>, startLine: nat, endLine: nat): (p: Placement)
    requires ValidGrammar(g) && startLine <= endLine < |lines|
    ensures Placed(p) && !p.endInserted
  {
    var newLines := SelectionAdaptations(g, lines, startLine, endLine);
    if newLines.0 == -1 && newLines.1 == -1 then Placement(lines, startLine, endLine, false, false)
    else
      var p0 :=
        if newLines.0 == -1 then Placement(lines, startLine, endLine, false, false)
        else if !IsBlank(lines[newLines.0]) then
          Placement(InsertAt(lines, newLines.0 + 1, ""), newLines.0 + 1, endLine, true, false)
        else Placement(lines, newLines.0, endLine, false, false);
      var shift := if p0.startInserted then 1 else 0;
      var end := if newLines.1 != -1 then newLines.1 + shift else endLine + shift;
      Placement(p0.lines, p0.start, end, p0.startInserted, false)
  }

  /** FileParser.java:124-132: when the start line is inside a comment that
      is preceded by a non-blank line, insert an empty line after the start
      line and move both boundaries down onto it. */
  function TightenStart(g: Grammar, p: Placement): (q: Placement)
    requires ValidGrammar(g) && Placed(p)
    ensures Placed(q) && q.endInserted == p.endInserted
  {
    var adaptionLines := CodeComment(g, p.lines, p.start);
    if adaptionLines.0 != -1 && !IsBlank(p.lines[adaptionLines.0]) then
      Placement(InsertAt(p.lines, p.start + 1, ""), p.start + 1, p.end + 1, true, p.endInserted)
    else p
  }

  /** FileParser.java:134-144: when the end line is inside a comment (but not
      its closing line) whose closing line contains `JavadocStart`, and the line after
      the end is not blank, insert an empty line after the end line and move
      the end onto it. The closing line lies after the end line, so the line
      after the end always exists. */
  function TightenEnd(g: Grammar, p: Placement): (q: Placement)
    requires ValidGrammar(g) && Placed(p)
    ensures Placed(q) && q.start == p.start && q.startInserted == p.startInserted
  {
    var adaptionLines := CodeComment(g, p.lines, p.end);
    if adaptionLines.1 != -1 && LineContains(g, p.lines[adaptionLines.1], JavadocStart)
       && !IsBlank(p.lines[p.end + 1]) then
      Placement(InsertAt(p.lines, p.end + 1, ""), p.start, p.end + 1, p.startInserted, true)
    else p
  }

  /** The tags `addTags` writes: a single-line tag, cleaned up with its line
      when either line was inserted; otherwise an end tag and a start tag,
      each cleaned up when its own line was inserted. */
  function SingleLineTag(p: Placement): TagSpec
  {
    TagSpec(true, true, p.startInserted || p.endInserted)
  }

  function StartTag(p: Placement): TagSpec
  {
    TagSpec(true, false, p.startInserted)
  }

  function EndTag(p: Placement): TagSpec
  {
    TagSpec(false, true, p.endInserted)
  }

  /** FileParser.java:146-181: append the tag text to the start and end lines. */
  function ApplyTags(g: Grammar, p: Placement, tagId: string): (r: seq<string>)
    requires Placed(p)
    ensures |r| == |p.lines|
  {
    if p.start == p.end then
      p.lines[p.start := p.lines[p.start] + Render(g, SingleLineTag(p), tagId)]
    else
      var withEnd := p.lines[p.end := p.lines[p.end] + Render(g, EndTag(p), tagId)];
      withEnd[p.start := withEnd[p.start] + Render(g, StartTag(p), tagId)]
  }

  /** Where `addTags` puts the tags for the 1-based lines `startLine..endLine`. */
  function FinalPlacement(g: Grammar, lines: seq<string>, startLine: nat, endLine: nat): (p: Placement)
    requires ValidGrammar(g) && 1 <= startLine <= endLine <= |lines|
    ensures Placed(p)
  {
    TightenEnd(g, TightenStart(g, AdaptSelection(g, lines, startLine - 1, endLine - 1)))
  }

  /** The document `addTags` writes back. */
  function TagsAdded(g: Grammar, lines: seq<string>, tagId: string, startLine: nat, endLine: nat): (r: seq<string>)
    requires ValidGrammar(g) && 1 <= startLine <= endLine <= |lines|
    ensures |lines| <= |r| <= |lines| + 3
  {
    AddTagsGrowth(g, lines, startLine, endLine);
    ApplyTags(g, FinalPlacement(g, lines, startLine, endLine), tagId)
  }

  /** Each of the three steps inserts at most one line. */
  lemma AddTagsGrowth(g: Grammar, lines: seq<string>, startLine: nat, endLine: nat)
    requires ValidGrammar(g) && 1 <= startLine <= endLine <= |lines|
    ensures var p := FinalPlacement(g, lines, startLine, endLine);
      |lines| <= |p.lines| <= |lines| + 3
  {
    var p1 := AdaptSelection(g, lines, startLine - 1, endLine - 1);
    var p2 := TightenStart(g, p1);
    assert |lines| <= |p1.lines| <= |lines| + 1;
    assert |p1.lines| <= |p2.lines| <= |p1.lines| + 1;
  }

  /** FileParser.java:91-122 as statements: adapt the selection to the
      comments around its boundaries. */
  method AdaptSelectionStep(g: Grammar, document: seq<string>, startLine0: int, endLine0: int)
    returns (p: Placement)
    requires ValidGrammar(g) && 0 <= startLine0 <= endLine0 < |document|
    ensures p == AdaptSelection(g, document, startLine0, endLine0)
  {
    var lines := document;
    var startLine, endLine := startLine0, endLine0;
    var startLineInserted := false;
    var newLines := ComputeSelectionAdaptations(g, lines, startLine, endLine);
    if newLines.0 != -1 || newLines.1 != -1 {
      if newLines.0 != -1 {
        var line := lines[newLines.0];
        if !IsBlank(line) {
          lines := InsertAt(lines, newLines.0 + 1, "");
          startLine := newLines.0 + 1;
          startLineInserted := true;
        } else {
          startLine := newLines.0;
        }
      }
      if newLines.1 != -1 {
        endLine := newLines.1 + (if startLineInserted then 1 else 0);
      } else {
        endLine := endLine + (if startLineInserted then 1 else 0);
      }
    }
    p := Placement(lines, startLine, endLine, startLineInserted, false);
  }

  /** FileParser.java:124-132 as statements. */
  method TightenStartStep(g: Grammar, p: Placement) returns (q: Placement)
    requires ValidGrammar(g) && Placed(p)
    ensures q == TightenStart(g, p)
  {
    var lines, startLine, endLine := p.lines, p.start, p.end;
    var startLineInserted := p.startInserted;
    var adaptionLines := CheckForCodeComment(g, lines, startLine);
    if adaptionLines.0 != -1 && !IsBlank(lines[adaptionLines.0]) {
      lines := InsertAt(lines, startLine + 1, "");
      startLine := startLine + 1;
      endLine := endLine + 1;
      startLineInserted := true;
    }
    q := Placement(lines, startLine, endLine, startLineInserted, p.endInserted);
  }

  /** FileParser.java:134-144 as statements. */
  method TightenEndStep(g: Grammar, p: Placement) returns (q: Placement)
    requires ValidGrammar(g) && Placed(p)
    ensures q == TightenEnd(g, p)
  {
    var lines, endLine := p.lines, p.end;
    var endLineInserted := p.endInserted;
    var adaptionLines := CheckForCodeComment(g, lines, endLine);
    if adaptionLines.1 != -1 && LineContains(g, lines[adaptionLines.1], JavadocStart) {
      var line := lines[endLine + 1];
      if !IsBlank(line) {
        lines := InsertAt(lines, endLine + 1, "");
        endLine := endLine + 1;
        endLineInserted := true;
      }
    }
    q := Placement(lines, p.start, endLine, p.startInserted, endLineInserted);
  }

  /** FileParser.java:146-181 as statements: configure the builder, then
      replace the start and end lines by themselves followed by the tag. */
  method ApplyTagsStep(g: Grammar, p: Placement, tagId: string) returns (lines: seq<string>)
    requires Placed(p)
    ensures lines == ApplyTags(g, p, tagId)
  {
    var tagBuilder := new CommentTagBuilder(g);
    var fluent: CommentTagBuilder;  // the setters' return value, unused as in the source
    lines := p.lines;
    var startLine, endLine := p.start, p.end;
    if startLine == endLine {
      fluent := tagBuilder.IsSingleLine();
      if p.startInserted || p.endInserted {
        fluent := tagBuilder.CleanupLineWithCommentRemoval(true);
      } else {
        fluent := tagBuilder.CleanupLineWithCommentRemoval(false);
      }
      assert tagBuilder.Config() == SingleLineTag(p);
      var line := lines[startLine];
      lines := RemoveAt(lines, startLine);
      line := line + tagBuilder.BuildTag(tagId);
      lines := InsertAt(lines, startLine, line);
      assert lines == ApplyTags(g, p, tagId);
    } else {
      fluent := tagBuilder.IsMultilineEndTag();
      if p.endInserted {
        fluent := tagBuilder.CleanupLineWithCommentRemoval(true);
      } else {
        fluent := tagBuilder.CleanupLineWithCommentRemoval(false);
      }
      assert tagBuilder.Config() == EndTag(p);
      var line := lines[endLine];
      lines := RemoveAt(lines, endLine);
      line := line + tagBuilder.BuildTag(tagId);
      lines := InsertAt(lines, endLine, line);
      ghost var withEnd := lines;
      assert withEnd == p.lines[endLine := p.lines[endLine] + Render(g, EndTag(p), tagId)];

      fluent := tagBuilder.IsMultilineStartTag();
      if p.startInserted {
        fluent := tagBuilder.CleanupLineWithCommentRemoval(true);
      } else {
        fluent := tagBuilder.CleanupLineWithCommentRemoval(false);
      }
      assert tagBuilder.Config() == StartTag(p);
      line := lines[startLine];
      lines := RemoveAt(lines, startLine);
      line := line + tagBuilder.BuildTag(tagId);
      lines := InsertAt(lines, startLine, line);
      assert lines == withEnd[startLine := withEnd[startLine] + Render(g, StartTag(p), tagId)];
    }
  }

  /** `addTags(tagId, startLine, endLine)` on the document's lines: the four
      steps of the source in order. */
  method AddTags(g: Grammar, document: seq<string>, tagId: string, startLine: int, endLine: int)
    returns (lines: seq<string>)
    requires ValidGrammar(g) && 1 <= startLine <= endLine <= |document|
    ensures lines == TagsAdded(g, document, tagId, startLine, endLine)
  {
    var p := AdaptSelectionStep(g, document, startLine - 1, endLine - 1);
    p := TightenStartStep(g, p);
    p := TightenEndStep(g, p);
    lines := ApplyTagsStep(g, p, tagId);
    TagsAddedSteps(g, document, tagId, startLine, endLine);
  }

  /** `TagsAdded` is the four steps in order. */
  lemma TagsAddedSteps(g: Grammar, lines: seq<string>, tagId: string, startLine: nat, endLine: nat)
    requires ValidGrammar(g) && 1 <= startLine <= endLine <= |lines|
    ensures TagsAdded(g, lines, tagId, startLine, endLine)
            == ApplyTags(g, TightenEnd(g, TightenStart(g, AdaptSelection(g, lines, startLine - 1, endLine - 1))), tagId)
  {
  }

  // ---------------------------------------------------------------------
  // Removing tags
  // ---------------------------------------------------------------------

  /** What `removeTags(Pattern, groupIncrement)` does with one line: `None`
      when the line is dropped (its first tag carries the line removal marker
      in group `3 + groupIncrement` and nothing but blanks remains once all
      tags are deleted), otherwise the line with all tags deleted. */
  function LineAfterRemoval(g: Grammar, p: IdPattern, groupIncrement: nat, line: string): (r: Option<string>)
    requires ValidGrammar(g)
    ensures Find(g, p, line, 0).None? ==> r == Some(line)
    ensures r.Some? ==> r.value == ReplaceAllTags(g, p, line)
    ensures r.None? ==> IsBlank(ReplaceAllTags(g, p, line))
  {
    var rest := ReplaceAllTags(g, p, line);
    match Find(g, p, line, 0)
    case None => UntaggedLineUnchanged(g, p, line); Some(rest)
    case Some(m) =>
      FindMatches(g, p, line, 0);
      MatchShape(g, p, line, m.start);
      if Group(g, p, line, m, 3 + groupIncrement) == Some(g.cleanup) && IsBlank(rest) then None
      else Some(rest)
  }

  /** The lines `removeTags(Pattern, groupIncrement)` writes back, built up
      line by line as the source's `LinkedList`. */
  function RemovedLines(g: Grammar, p: IdPattern, groupIncrement: nat, lines: seq<string>): (r: seq<string>)
    requires ValidGrammar(g)
    ensures |r| <= |lines|
  {
    if |lines| == 0 then []
    else
      var kept := RemovedLines(g, p, groupIncrement, lines[..|lines| - 1]);
      match LineAfterRemoval(g, p, groupIncrement, lines[|lines| - 1])
      case None => kept
      case Some(line) => kept + [line]
  }

  /** `removeTags(Pattern, groupIncrement)`. The line removal marker is the
      grammar's cleanup marker, which is the same configuration property. */
  method RemoveTagsWith(g: Grammar, tagPattern: IdPattern, groupIncrement: nat, document: seq<string>)
    returns (lines: seq<string>)
    requires ValidGrammar(g)
    ensures lines == RemovedLines(g, tagPattern, groupIncrement, document)
  {
    var removalCharacter := g.cleanup;
    lines := [];
    for i := 0 to |document|
      invariant lines == RemovedLines(g, tagPattern, groupIncrement, document[..i])
    {
      var line := document[i];
      var removeLine := false;
      var found := Find(g, tagPattern, line, 0);
      if found.Some? {
        var matcher := found.value;
        FindMatches(g, tagPattern, line, 0);
        MatchShape(g, tagPattern, line, matcher.start);
        if Some(removalCharacter) == Group(g, tagPattern, line, matcher, 3 + groupIncrement) {
          var newLine := ReplaceAllTags(g, tagPattern, line);
          if IsBlank(newLine) {
            removeLine := true;
          }
        }
      }
      if !removeLine {
        lines := lines + [ReplaceAllTags(g, tagPattern, line)];
      }
      assert document[..i + 1][..i] == document[..i];
    }
    assert document[..|document|] == document;
  }

  /** `removeTags(tagId)`: remove the tags of one id, matched literally. */
  method RemoveTags(g: Grammar, tagId: string, document: seq<string>) returns (lines: seq<string>)
    requires ValidGrammar(g)
    ensures lines == RemovedLines(g, LiteralId(tagId), 0, document)
  {
    var pattern := BuildTagRegex(tagId, false);
    lines := RemoveTagsWith(g, pattern.value, 0, document);
  }

  /** `clearAllTags()`: remove every tag. */
  method ClearAllTags(g: Grammar, document: seq<string>) returns (lines: seq<string>)
    requires ValidGrammar(g)
    ensures lines == RemovedLines(g, AnyId, 1, document)
  {
    lines := RemoveTagsWith(g, BuildAnyTagRegex(), 1, document);
  }
}
