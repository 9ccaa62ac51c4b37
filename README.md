# AgileReview tag engine in Dafny

AgileReview keeps review comments out of the source text. All it writes into
a file are small tags placed inside the file's own multi-line comment
delimiters. In an example configuration with key separator `|`, start/end
marker `?` and cleanup marker `°`, a start tag reads `/*-?|id|*/` and an end
tag `/*-|id|?*/`. The three markers are read from configuration; here they
are parameters of the model. The operations are modelled for any values.
The decoding and round-trip lemmas assume a well-formed grammar
(`TagGrammar.WellFormed`):

- the start/end marker, the key separator and the cleanup marker are each
  one character, and the three are pairwise distinct;
- the first character of the closing delimiter is neither the start/end
  marker nor the cleanup marker.

The round trips of `addTags` and removal assume two more things of the
opening delimiter. It has no proper prefix that is also a suffix
(`TagGrammar.BorderFree`), and it has a visible character. The example
configuration meets all of these (`TagGrammar.ExampleGrammarWellFormed`).
Markers of more than one character are not covered by those lemmas.

This project models that tag engine and proves what it does.

- **`CommentTags`**: `CommentTagBuilder`. A class with three flags that the
  fluent setters change. `BuildTag` renders a tag from those flags.
- **`CommentTagRegex`**: `CommentTagRegexBuilder`. It describes the one
  pattern shape the builder produces, for any id or for one literal id. It
  also holds a recogniser for that shape that follows Java's backtracking
  order (`MatchAt`), `Matcher.find` (`Find`), `replaceAll("")` (`RemoveAll`,
  `ReplaceAllTags`) and `Matcher.group` (`Group`).
- **`TagRoundTrip`**: the pattern matches every rendered tag wherever it
  occurs, in full, and every group reads back what the builder put in.
- **`FileParser`**: the line engine. The document is a `seq<string>`.
  - `CheckForCodeComment`, `ComputeSelectionAdaptations` and the stages of
    `AddTags` are loops and list updates. They are written as methods and
    proved equal to specification functions.
  - `RemoveTagsWith` is the private `removeTags(Pattern, int)`. `RemoveTags`
    and `ClearAllTags` are the two public entry points.
- **`CommentRegions`**: what `checkForCodeComment` and
  `computeSelectionAdapations` mean, stated in terms of comment regions.
- **`AddTagsFacts`**: `addTags` keeps every original line in order, inserts
  only empty lines, and sets the cleanup flags to match the inserted lines.
- **`AddTagsScenarios`**: the selections the tests exercise. These are
  selections outside comments, and the three selections that reach into a
  documentation comment.
- **`RemovalFacts`**: what removal does to a tagged line, that it keeps
  order, and that it undoes `addTags`.
- **`CommentSafety`**: where `addTags` puts its tags relative to comments.
  A boundary inside a comment that opens after the first line is moved out
  of it, and the round trip holds there too. A start on its comment's
  closing line stays after the closing delimiter, or moves onto an empty
  line inserted after it when the line before the comment holds code. A comment that opens on the
  first line is not recognised, and a tag lands inside it.

Line numbers in the model are 0-based. `AddTags` takes the source's 1-based
`startLine`/`endLine` and converts them, as the source does at
FileParser.java:73-74.

The model follows the code where the code and its documentation disagree:

- **Group numbering.** The javadoc of `buildTagRegex()` says that group 3 of
  the any-id pattern is the id. Groups are numbered by opening parenthesis,
  so the pattern actually gives:
  - group 1: the leading marker;
  - group 2: the id;
  - group 3: the trailing marker;
  - group 4: the cleanup marker.

  `removeTags` reads group `3 + groupIncrement`. That is group 4 for the
  any-id pattern and group 3 for the literal pattern, the cleanup group in
  both cases, so the mistake in the javadoc is harmless.
- **New end line.** `computeSelectionAdapations` proposes a new end line only
  when `endLineAdaptions[0] != -1` (FileParser.java:241). So a comment that
  opens on line 0 never moves the end. `NewEndMeaning` states this condition.
- **The `"/**"` test.** FileParser.java:136 checks for the hard-coded text
  `"/**"`, and it checks the comment's closing line, not its opening line.
  `TightenEnd` models this as written (`JavadocStart`).

## Model

| member | source | states |
|---|---|---|
| CommentTags.Render | org.agilereview.common/src/main/java/org/agilereview/common/parser/CommentTagBuilder.java:90-93 | a tag starts with the opening delimiter followed by `-`, ends with the closing delimiter, and its length is the sum of its parts, each optional part counted exactly when its flag is set |
| TagRoundTrip.FlagsReadBack | org.agilereview.common/src/main/java/org/agilereview/common/parser/CommentTagBuilder.java:90-93 | in a well-formed grammar each flag can be read back from the rendered tag wherever it occurs: the leading marker is there iff it is a start tag, the trailing marker iff it is an end tag, the cleanup marker iff the cleanup flag is set |
| TagGrammar.ExampleGrammarWellFormed | org.agilereview.common/src/main/java/org/agilereview/common/parser/CommentTagBuilder.java:90-93 | the example configuration (`?`, `|`, `°` between `/*` and `*/`) is a well-formed grammar with a border-free opening delimiter that has a visible character |
| CommentTags.CommentTagBuilder.constructor | org.agilereview.common/src/main/java/org/agilereview/common/parser/CommentTagBuilder.java:20-38 | a fresh builder keeps the given grammar and has all three flags false |
| CommentTags.CommentTagBuilder.IsMultilineStartTag | org.agilereview.common/src/main/java/org/agilereview/common/parser/CommentTagBuilder.java:45-49 | sets start=true and end=false, leaves the cleanup flag alone, returns the same builder |
| CommentTags.CommentTagBuilder.IsMultilineEndTag | org.agilereview.common/src/main/java/org/agilereview/common/parser/CommentTagBuilder.java:56-60 | sets start=false and end=true, leaves the cleanup flag alone, returns the same builder |
| CommentTags.CommentTagBuilder.IsSingleLine | org.agilereview.common/src/main/java/org/agilereview/common/parser/CommentTagBuilder.java:67-71 | sets start=true and end=true, leaves the cleanup flag alone, returns the same builder |
| CommentTags.CommentTagBuilder.CleanupLineWithCommentRemoval | org.agilereview.common/src/main/java/org/agilereview/common/parser/CommentTagBuilder.java:79-82 | sets the cleanup flag to its argument, leaves both role flags alone, returns the same builder |
| CommentTags.CommentTagBuilder.BuildTag | org.agilereview.common/src/main/java/org/agilereview/common/parser/CommentTagBuilder.java:90-93 | reads the builder and changes nothing; the text is `Render` of the current flags, so it starts with `startTag + "-"` and ends with `endTag` |
| CommentTags.FreshBuilderTag | org.agilereview.common/src/main/java/org/agilereview/common/parser/CommentTagBuilder.java:36-38 | a fresh builder renders `startTag - sep id sep endTag`, with no marker and no cleanup marker |
| CommentTagRegex.BuildTagRegex | org.agilereview.common/src/main/java/org/agilereview/common/parser/CommentTagRegexBuilder.java:36-42 | without `isRegex`, the pattern matches the quoted id literally; with `isRegex`, only the any-id regex `(.+?)` is modelled |
| CommentTagRegex.BuildAnyTagRegex | org.agilereview.common/src/main/java/org/agilereview/common/parser/CommentTagRegexBuilder.java:50-52 | `buildTagRegex()` is `buildTagRegex("(.+?)", true)` |
| CommentTagRegex.LazyId | org.agilereview.common/src/main/java/org/agilereview/common/parser/CommentTagRegexBuilder.java:40-41 | the reluctant id group: the id it settles on is made of non-terminator characters, and the rest of the pattern matches after it |
| CommentTagRegex.MatchAt | org.agilereview.common/src/main/java/org/agilereview/common/parser/CommentTagRegexBuilder.java:40-41 | every match found at `i` is sound: each literal of the pattern occurs where the match says, and the optional parts are present exactly as reported |
| CommentTagRegex.FindMatches | org.agilereview.fileparser/src/main/java/org/agilereview/fileparser/FileParser.java:337 | what `find` reports is the pattern's own match at the reported position |
| CommentTagRegex.FindLeftmost | org.agilereview.fileparser/src/main/java/org/agilereview/fileparser/FileParser.java:337 | `find` reports the leftmost match: the pattern matches at no earlier position, and when nothing is reported it matches nowhere |
| CommentTagRegex.MatchAtComplete | org.agilereview.common/src/main/java/org/agilereview/common/parser/CommentTagRegexBuilder.java:40-41 | the recogniser misses no tag: wherever a sound match of the pattern exists at `i`, `MatchAt` finds a match there |
| CommentTagRegex.FindComplete | org.agilereview.fileparser/src/main/java/org/agilereview/fileparser/FileParser.java:337 | no tag-shaped text (sound match) starts from `from` on before the position `find` reports, nor anywhere from `from` on when it reports nothing |
| CommentTagRegex.TaglessLineUnchanged | org.agilereview.fileparser/src/main/java/org/agilereview/fileparser/FileParser.java:298 | a line holding no tag-shaped text at all has no match and comes out of `replaceAll("")` unchanged |
| CommentTagRegex.UntaggedLineUnchanged | org.agilereview.fileparser/src/main/java/org/agilereview/fileparser/FileParser.java:298 | a line without a match comes out of `replaceAll("")` unchanged |
| CommentTagRegex.MatchShape | org.agilereview.common/src/main/java/org/agilereview/common/parser/CommentTagRegexBuilder.java:40-41 | every match starts with the opening delimiter, has a separator on each side of the id (a non-empty id for the any-id pattern), ends with the closing delimiter and lies within the line |
| CommentTagRegex.BareDelimitersNeverMatch | org.agilereview.common/src/main/java/org/agilereview/common/parser/CommentTagRegexBuilder.java:40-41 | a bare delimiter or an empty comment is never taken for a tag and survives tag removal |
| TagRoundTrip.RenderedTagMatchesAnyId | org.agilereview.common/src/main/java/org/agilereview/common/parser/CommentTagRegexBuilder.java:50-52 | wherever a rendered tag with a valid id occurs, the any-id pattern anchored there matches it in full, with dash, markers, cleanup marker and id as rendered |
| TagRoundTrip.RenderedTagMatchesLiteralId | org.agilereview.common/src/main/java/org/agilereview/common/parser/CommentTagRegexBuilder.java:36-42 | the literal pattern matches the rendered tag of the same id in full, in a well-formed grammar, for any id, metacharacters and separators included |
| TagRoundTrip.DashlessTagMatches | org.agilereview.common/src/main/java/org/agilereview/common/parser/CommentTagRegexBuilder.java:40 | a tag spelled without the dash is matched too, and no rendered tag is spelled that way, so the pattern accepts more than the builder emits |
| TagRoundTrip.RenderedTagGroupsAnyId | org.agilereview.common/src/main/java/org/agilereview/common/parser/CommentTagRegexBuilder.java:36-52 | any-id groups: 0 the whole tag, 1 captured iff start tag, 2 the id, 3 captured iff end tag, 4 the cleanup marker iff the tag has it |
| TagRoundTrip.RenderedTagGroupsLiteralId | org.agilereview.common/src/main/java/org/agilereview/common/parser/CommentTagRegexBuilder.java:36-42 | literal-pattern groups: 0 the whole tag, 1 captured iff start tag, 2 captured iff end tag, 3 the cleanup marker iff the tag has it |
| TagRoundTrip.CleanupGroupOfRenderedTag | org.agilereview.fileparser/src/main/java/org/agilereview/fileparser/FileParser.java:308-338 | group `3 + groupIncrement` is the cleanup group under both patterns `removeTags` uses |
| FileParser.LineContainsStripped | org.agilereview.fileparser/src/main/java/org/agilereview/fileparser/FileParser.java:297-300 | `lineContains` is a substring test on the line after all any-id tags are deleted |
| FileParser.LastContainingIsLast | org.agilereview.fileparser/src/main/java/org/agilereview/fileparser/FileParser.java:261-265 | the opening scan finds the last line before the bound that contains the delimiter, or -1 when no such line exists |
| FileParser.FirstContainingIsFirst | org.agilereview.fileparser/src/main/java/org/agilereview/fileparser/FileParser.java:268-275 | the closing scan finds the first line from its start that contains the delimiter, or -1 when no such line exists |
| FileParser.ScanForOpening | org.agilereview.fileparser/src/main/java/org/agilereview/fileparser/FileParser.java:257-265 | the first loop of `checkForCodeComment` computes the last line containing the opening delimiter |
| FileParser.ScanForClosing | org.agilereview.fileparser/src/main/java/org/agilereview/fileparser/FileParser.java:258-275 | the second loop computes the first line from the opening line on that contains the closing delimiter |
| FileParser.CheckForCodeComment | org.agilereview.fileparser/src/main/java/org/agilereview/fileparser/FileParser.java:254-287 | the method returns `CodeComment`: the first component lies in [-1, line), the second is -1 or a later line |
| FileParser.ComputeSelectionAdaptations | org.agilereview.fileparser/src/main/java/org/agilereview/fileparser/FileParser.java:232-246 | the method returns `SelectionAdaptations`: a new start before the start line or -1, and a new end after the end line or -1 |
| FileParser.AdaptSelectionStep | org.agilereview.fileparser/src/main/java/org/agilereview/fileparser/FileParser.java:91-122 | the first stage of `addTags` computes `AdaptSelection`: the boundaries are still ordered and in range, and no end line is inserted yet |
| FileParser.TightenStartStep | org.agilereview.fileparser/src/main/java/org/agilereview/fileparser/FileParser.java:124-132 | the second stage computes `TightenStart` |
| FileParser.TightenEndStep | org.agilereview.fileparser/src/main/java/org/agilereview/fileparser/FileParser.java:134-144 | the third stage computes `TightenEnd`; the line after the end line that it reads always exists |
| FileParser.ApplyTagsStep | org.agilereview.fileparser/src/main/java/org/agilereview/fileparser/FileParser.java:146-181 | writing the tags with the builder and `remove`/`add` on the list computes `ApplyTags` |
| FileParser.AddTags | org.agilereview.fileparser/src/main/java/org/agilereview/fileparser/FileParser.java:70-181 | `addTags` returns `TagsAdded`, which is at least as long as the document and at most three lines longer |
| FileParser.AddTagsGrowth | org.agilereview.fileparser/src/main/java/org/agilereview/fileparser/FileParser.java:99-144 | each of the three stages inserts at most one line |
| FileParser.LineAfterRemoval | org.agilereview.fileparser/src/main/java/org/agilereview/fileparser/FileParser.java:335-347 | a line without a match is kept as it is; a kept line has all its matches deleted; a dropped line is blank once its matches are deleted |
| FileParser.RemovedLines | org.agilereview.fileparser/src/main/java/org/agilereview/fileparser/FileParser.java:332-348 | removal never makes the document longer |
| FileParser.RemoveTagsWith | org.agilereview.fileparser/src/main/java/org/agilereview/fileparser/FileParser.java:328-351 | the loop over the lines computes `RemovedLines` |
| FileParser.RemoveTags | org.agilereview.fileparser/src/main/java/org/agilereview/fileparser/FileParser.java:308-310 | `removeTags(tagId)` is removal with the literal pattern and group increment 0 |
| FileParser.ClearAllTags | org.agilereview.fileparser/src/main/java/org/agilereview/fileparser/FileParser.java:317-319 | `clearAllTags()` is removal with the any-id pattern and group increment 1 |
| CommentRegions.CommentAroundInRegion | org.agilereview.fileparser/src/main/java/org/agilereview/fileparser/FileParser.java:279-285 | inside the region that opens on `o` and closes on `c`, the result is `(o-1, c)`, with -1 in place of `c` when `c` is the line itself |
| CommentRegions.CommentAroundOutsideRegions | org.agilereview.fileparser/src/main/java/org/agilereview/fileparser/FileParser.java:278-286 | outside every region the result is (-1, -1) |
| CommentRegions.RegionUnique | org.agilereview.fileparser/src/main/java/org/agilereview/fileparser/FileParser.java:261-275 | a line lies in at most one region |
| CommentRegions.RegionOrNone | org.agilereview.fileparser/src/main/java/org/agilereview/fileparser/FileParser.java:254-287 | a line either lies in some region or gets (-1, -1) |
| CommentRegions.CodeCommentInRegion | org.agilereview.fileparser/src/main/java/org/agilereview/fileparser/FileParser.java:279-285 | `checkForCodeComment` on a line in the region that opens on `o` and closes on `c`, read with tags deleted, is `(o-1, c)`, with -1 in place of `c` when `c` is the line itself |
| CommentRegions.CodeCommentOutsideRegions | org.agilereview.fileparser/src/main/java/org/agilereview/fileparser/FileParser.java:278-286 | `checkForCodeComment` on a line that lies in no region, read with tags deleted, is (-1, -1) |
| CommentRegions.NewStartMeaning | org.agilereview.fileparser/src/main/java/org/agilereview/fileparser/FileParser.java:232-240 | a new start is proposed iff the start line lies in a region it does not close and that does not open on line 0; the proposal is the line before the region |
| CommentRegions.NewEndMeaning | org.agilereview.fileparser/src/main/java/org/agilereview/fileparser/FileParser.java:232-246 | a new end is proposed iff the end line lies in a region it does not close and that does not open on line 0; the proposal is the region's closing line |
| AddTagsFacts.KeepInsert | org.agilereview.fileparser/src/main/java/org/agilereview/fileparser/FileParser.java:99-144 | an inserted line that is masked out does not change which original lines are kept |
| AddTagsFacts.AdaptSelectionShape | org.agilereview.fileparser/src/main/java/org/agilereview/fileparser/FileParser.java:91-122 | the first stage either leaves the lines alone, or inserts one empty line at the new start, which then lies before the end |
| AddTagsFacts.TightenStartShape | org.agilereview.fileparser/src/main/java/org/agilereview/fileparser/FileParser.java:124-132 | the second stage either changes nothing, or inserts an empty line after the start and moves both boundaries down by one |
| AddTagsFacts.TightenEndShape | org.agilereview.fileparser/src/main/java/org/agilereview/fileparser/FileParser.java:134-144 | the third stage either changes nothing, or inserts an empty line after the end and moves the end onto it |
| AddTagsFacts.FinalPlacementTracks | org.agilereview.fileparser/src/main/java/org/agilereview/fileparser/FileParser.java:91-144 | after the three stages, a mask marks the original lines among the new ones; the start line is an inserted one iff `startLineInserted`, and likewise for the end line |
| AddTagsFacts.PlacementKeepsLines | org.agilereview.fileparser/src/main/java/org/agilereview/fileparser/FileParser.java:99-181 | `addTags` keeps every original line, in order, inserts at most three lines, all empty, and gives a tag the cleanup marker exactly when the tag's line is an inserted one |
| AddTagsFacts.ApplyTagsAppends | org.agilereview.fileparser/src/main/java/org/agilereview/fileparser/FileParser.java:146-181 | writing the tags appends a single-line tag to the line when start and end coincide, and otherwise an end tag to the end line and a start tag to the start line; the single-line tag has the cleanup marker when either line was inserted, and each of the other two when its own line was; no other line changes |
| AddTagsScenarios.NoOpeningOutside | org.agilereview.fileparser/src/main/java/org/agilereview/fileparser/FileParser.java:261-286 | a document in which no line contains the opening delimiter has no comment regions |
| AddTagsScenarios.OutsideCommentsPlacement | org.agilereview.fileparser/src/main/java/org/agilereview/fileparser/FileParser.java:91-144 | with both boundaries outside every comment, no stage moves a boundary or inserts a line |
| AddTagsScenarios.AddTagsOutsideComments | org.agilereview.fileparser/src/test/java/org/agilereview/fileparser/FileParserTest.java:33-82 | outside comments, a one-line selection gets a single-line tag, a longer one a start tag and an end tag, none with cleanup, and no other line changes |
| AddTagsScenarios.DocCommentRegions | org.agilereview.fileparser/src/test/java/org/agilereview/fileparser/FileParserTest.java:91-177 | on the test fixture, lines 16 to 18 lie in the comment after line 14 that closes on line 18, and line 14 lies in no comment |
| AddTagsScenarios.DocCommentScenario | org.agilereview.fileparser/src/test/java/org/agilereview/fileparser/FileParserTest.java:91-177 | the selections 18-19, 15-17 and 17-18 each put the start tag on the blank line before the comment and the end tag on its closing line, with no inserted lines and nothing else changed |
| RemovalFacts.FindSkips | org.agilereview.fileparser/src/main/java/org/agilereview/fileparser/FileParser.java:337 | `find` passes over positions where the pattern does not match |
| RemovalFacts.NoOpeningNoTag | org.agilereview.fileparser/src/main/java/org/agilereview/fileparser/FileParser.java:335-347 | a line without the opening delimiter holds no tag and passes through unchanged |
| RemovalFacts.FindAppendedTag | org.agilereview.fileparser/src/main/java/org/agilereview/fileparser/FileParser.java:337 | in a line with a tag appended, where the line has no opening delimiter of its own, the first match is the appended tag |
| RemovalFacts.StripAppendedTag | org.agilereview.fileparser/src/main/java/org/agilereview/fileparser/FileParser.java:338-347 | `replaceAll("")` deletes the appended tag and nothing else |
| RemovalFacts.TagOnlyLine | org.agilereview.fileparser/src/main/java/org/agilereview/fileparser/FileParser.java:297-300 | a line that holds only a rendered tag is empty once tags are deleted, so `lineContains` finds neither delimiter in it, nor any other non-empty text |
| RemovalFacts.TaggedLineRemoval | org.agilereview.fileparser/src/main/java/org/agilereview/fileparser/FileParser.java:336-347 | a line `addTags` tagged is dropped exactly when the tag has the cleanup marker and only blanks precede it; otherwise the line comes back without its tag |
| RemovalFacts.RemovedLinesKeep | org.agilereview.fileparser/src/main/java/org/agilereview/fileparser/FileParser.java:332-348 | when each line's outcome is known, removal writes the surviving outcomes in order |
| RemovalFacts.RemovalKeepsOrder | org.agilereview.fileparser/src/main/java/org/agilereview/fileparser/FileParser.java:332-348 | removal writes the lines with their tags deleted, in order, leaving out exactly the lines that are dropped |
| RemovalFacts.UntaggedDocumentUnchanged | org.agilereview.fileparser/src/main/java/org/agilereview/fileparser/FileParser.java:335-347 | a document without tags comes out of removal unchanged |
| RemovalFacts.RemoveUndoesAdd | org.agilereview.fileparser/src/main/java/org/agilereview/fileparser/FileParser.java:70-351 | removing the tags of an id, with either pattern, from the document `addTags` wrote for that id gives back the original, when the selection lies outside comments, the tagged lines hold no opening delimiter and the document holds no tag |
| RemovalFacts.TaggedLineBack | org.agilereview.fileparser/src/main/java/org/agilereview/fileparser/FileParser.java:336-347 | each line of a tagged document goes back to the line it was under removal of the tag's id, except an inserted empty line, which is dropped with its tag |
| RemovalFacts.RemoveUndoesPlacement | org.agilereview.fileparser/src/main/java/org/agilereview/fileparser/FileParser.java:146-181 | removing the tags of an id from a document tagged at a placement that inserted at most an empty start line gives back the document before the placement |
| RemovalFacts.RemoveUndoesAddWithoutComments | org.agilereview.fileparser/src/main/java/org/agilereview/fileparser/FileParser.java:70-351 | the same round trip for any document in which no line contains the opening delimiter |
| RemovalFacts.DocCommentRoundTrip | org.agilereview.fileparser/src/test/java/org/agilereview/fileparser/FileParserTest.java:91-177 | the three selections into the documentation comment of the test fixture round-trip: removing their tags gives back the fixture |
| CommentSafety.StrippedInsert | org.agilereview.fileparser/src/main/java/org/agilereview/fileparser/FileParser.java:297-300 | an inserted empty line stays empty once tags are deleted, and every other line reads as before |
| CommentSafety.RegionAfterInsert | org.agilereview.fileparser/src/main/java/org/agilereview/fileparser/FileParser.java:254-287 | an inserted empty line neither opens nor closes a comment: a region around another line is the same region of the document before the insertion |
| CommentSafety.InsertedRegionBack | org.agilereview.fileparser/src/main/java/org/agilereview/fileparser/FileParser.java:254-287 | a region around an inserted empty line is a region, in the document before, around the line before it that it does not close |
| CommentSafety.InsertedLineOutside | org.agilereview.fileparser/src/main/java/org/agilereview/fileparser/FileParser.java:99-103 | an empty line inserted after a line outside every comment lies outside every comment |
| CommentSafety.OutsideAfterInsert | org.agilereview.fileparser/src/main/java/org/agilereview/fileparser/FileParser.java:99-103 | a line outside every comment stays outside when an empty line is inserted elsewhere |
| CommentSafety.ClosingLineCloses | org.agilereview.fileparser/src/main/java/org/agilereview/fileparser/FileParser.java:279-285 | on a region's closing line `checkForCodeComment` reports no comment continuing past it |
| CommentSafety.ClosingLineClosesAfterInsert | org.agilereview.fileparser/src/main/java/org/agilereview/fileparser/FileParser.java:279-285 | the same for the closing line moved down by an empty line inserted above it |
| CommentSafety.AdaptedBoundaries | org.agilereview.fileparser/src/main/java/org/agilereview/fileparser/FileParser.java:232-246 | for a start in a comment opening after line 0, whose preceding line lies in no comment, and an end in a comment or outside all, the proposals are the line before the start's comment, unless the start is its comment's closing line, and the end's closing line, unless the end already is it |
| CommentSafety.AdaptedStartOutside | org.agilereview.fileparser/src/main/java/org/agilereview/fileparser/FileParser.java:124-132 | after adaptation the start lies outside every comment, so `checkForCodeComment` reports (-1, -1) on it |
| CommentSafety.AdaptedEndCloses | org.agilereview.fileparser/src/main/java/org/agilereview/fileparser/FileParser.java:134-144 | after adaptation the end is the original end outside comments or the closing line of its comment, and no comment continues past it |
| CommentSafety.CommentSafePlacement | org.agilereview.fileparser/src/main/java/org/agilereview/fileparser/FileParser.java:61-144 | comment safety of `addTags` for a start before its comment's closing line: a start in a comment that opens after line 0 moves to the line before the comment (or onto an empty line inserted there when that line holds code), an end in a comment moves to its closing line, neither tightening step changes anything, and afterwards the start lies outside every comment and the end outside every comment or on the closing line with no comment continuing past it |
| CommentSafety.RemoveUndoesAddAroundComments | org.agilereview.fileparser/src/main/java/org/agilereview/fileparser/FileParser.java:70-351 | removing the tags of one id from what `addTags` wrote around comments gives back the original, an inserted empty start line included, when the tagged lines hold no opening delimiter and no line holds a tag; the start may lie before its comment's closing line or on it |
| CommentSafety.AdaptedPlacement | org.agilereview.fileparser/src/main/java/org/agilereview/fileparser/FileParser.java:91-122 | once the adaptations are known, the first stage moves the start to the line before its comment, or onto an empty line inserted after that line when it holds code, and the end to its closing line, shifted by the inserted line |
| CommentSafety.TightenEndIdle | org.agilereview.fileparser/src/main/java/org/agilereview/fileparser/FileParser.java:134-144 | the end tightening step changes nothing when no comment continues past the end |
| CommentSafety.TighteningIdle | org.agilereview.fileparser/src/main/java/org/agilereview/fileparser/FileParser.java:124-144 | neither tightening step changes anything when the start lies in no comment and no comment continues past the end |
| CommentSafety.InsertedEndCloses | org.agilereview.fileparser/src/main/java/org/agilereview/fileparser/FileParser.java:134-144 | an end that moved down with an inserted empty line still lies outside every comment or on its closing line, with no comment continuing past it |
| CommentSafety.InsertedAfterClosingOutside | org.agilereview.fileparser/src/main/java/org/agilereview/fileparser/FileParser.java:254-287 | an empty line inserted right after a line holding the closing delimiter lies in no region |
| CommentSafety.ClosingLineMoved | org.agilereview.fileparser/src/main/java/org/agilereview/fileparser/FileParser.java:124-132 | that inserted empty line lies outside every comment, and `checkForCodeComment` reports (-1, -1) on it |
| CommentSafety.ClosingStartAdapted | org.agilereview.fileparser/src/main/java/org/agilereview/fileparser/FileParser.java:91-122 | for a start on its comment's closing line, no new start is proposed and the end moves to its comment's closing line |
| CommentSafety.ClosingStartTightened | org.agilereview.fileparser/src/main/java/org/agilereview/fileparser/FileParser.java:124-132 | a start on the closing line of a comment preceded by code moves, with the end, one line down onto an inserted empty line; after a blank line nothing changes |
| CommentSafety.ClosingEndCloses | org.agilereview.fileparser/src/main/java/org/agilereview/fileparser/FileParser.java:134-144 | after a start on a closing line has been tightened, the end lies on its original line (or on the start's inserted empty line), outside every comment unless it is a closing line, with no comment continuing past it |
| CommentSafety.ClosingStartPlacement | org.agilereview.fileparser/src/main/java/org/agilereview/fileparser/FileParser.java:61-144 | for a start on its comment's closing line, `addTags` ends with `ClosingPlacement`: the start stays after the closing delimiter, or moves onto an empty line inserted after it when the line before the comment holds code, and the end moves to its closing line |
| CommentSafety.ClosingPlacement | org.agilereview.fileparser/src/main/java/org/agilereview/fileparser/FileParser.java:124-132 | that placement inserts an empty start line exactly when the line before the comment is not blank, and never an end line |
| CommentSafety.ClosingStartSafe | org.agilereview.fileparser/src/main/java/org/agilereview/fileparser/FileParser.java:124-144 | that placement is comment safe: no comment continues past either boundary, an inserted start line lies outside every comment, and an end outside comments stays outside |
| CommentSafety.ClosingPlacementUndone | org.agilereview.fileparser/src/main/java/org/agilereview/fileparser/FileParser.java:146-181 | removing the tags written at that placement gives back the document |
| CommentSafety.TagsAddedVia | org.agilereview.fileparser/src/main/java/org/agilereview/fileparser/FileParser.java:70-181 | `addTags` writes the tags at the placement its three stages end with |
| CommentSafety.PlacementUndone | org.agilereview.fileparser/src/main/java/org/agilereview/fileparser/FileParser.java:70-351 | removal undoes `addTags` whenever the final placement inserted at most an empty start line and its tagged lines hold no opening delimiter |
| CommentSafety.RemoveUndoesAddAtClosingLine | org.agilereview.fileparser/src/main/java/org/agilereview/fileparser/FileParser.java:70-351 | the round trip for a start on its comment's closing line |
| CommentSafety.RemoveUndoesAddBeforeClosingLine | org.agilereview.fileparser/src/main/java/org/agilereview/fileparser/FileParser.java:70-351 | the round trip for a start outside comments or before its comment's closing line, whose preceding line lies in no comment |
| CommentSafety.CommentOnFirstLineIgnored | org.agilereview.fileparser/src/main/java/org/agilereview/fileparser/FileParser.java:232-246 | for a one-line selection inside a comment that opens on line 0, the adaptations read the -1 for "line before the comment" as "no change", and the single-line tag is appended to the selected line inside the comment |
| CommentSafety.ShortLineNoTag | org.agilereview.fileparser/src/main/java/org/agilereview/fileparser/FileParser.java:335-347 | a line shorter than two delimiters and two separators holds no tag |
| CommentSafety.FirstLineCommentExample | org.agilereview.fileparser/src/main/java/org/agilereview/fileparser/FileParser.java:91-181 | `addTags(id, 2, 2)` on `/**`, ` * foo`, ` */`, `int x;` appends the single-line tag to ` * foo`, a line inside the comment |

## Left out

- File I/O: `FileUtils.readLines`/`writeLines` and the readers (FileParser.java:89,184,333-350). The document is a `seq<string>` in and out. Line-separator conventions are not modelled.
- Property loading: the markers and the line removal marker, read from configuration in TagBuilder.java:50-53 and FileParser.java:329, are fields of `Grammar` given as parameters. The line removal marker is the grammar's `cleanup`, because both are the same property. ParserProperties.java, AbstractProperties.java and MessageSourceHolder.java are not part of this model.
- Logging (`LOG.debug`) and the commented-out code at FileParser.java:82-88 and 186-219.
- The `significantlyChanged` array (FileParser.java:80,110,118,131,142) is written but never read. The model drops it.
- The general `java.util.regex` engine is not modelled. Only the one pattern shape is recognised, with `find`, `replaceAll("")` and `group`.
- BuildTagRegex: with `isRegex` set, only the any-id regex `(.+?)` is modelled. Any other caller-supplied regex yields `None`.
- Group: Java throws on a group number above the pattern's group count. The model returns `None` there. FileParser never asks for such a group.
- Strings are sequences of `char`. UTF-16 surrogate pairs are not told apart: the `.` of the id group excludes only the five single-unit line terminators.
- The start can land below the requested start. When the requested start line is a comment's closing line and the comment is preceded by code, FileParser.java:124-132 inserts a line after it and moves the start tag there. The model does this as written, and `ClosingStartPlacement` states it. No lemma claims that the selection only ever grows.
- AddTags: comment safety (FileParser.java:61-63, 237) holds only for comments that open after the first line. For a start before its comment's closing line it also needs the line before the comment to lie in no comment itself, which the source does not check (its own note at FileParser.java:280). `CommentSafePlacement` proves it under those conditions, and `ClosingStartSafe` for a start on the closing line. A comment that opens on line 0 makes `checkForCodeComment` report -1 as the line before it, which the tests at FileParser.java:126, 238 and 241 read as "no comment". A selection inside such a comment keeps its tag inside the comment, and the closing delimiter at the end of the tag then ends the comment early. `CommentOnFirstLineIgnored` and `FirstLineCommentExample` exhibit this; the model keeps the behaviour as written.
- RemoveUndoesAdd: stated for selections outside comments only; `RemoveUndoesAddAroundComments` and `DocCommentRoundTrip` cover boundaries in comments.
- RemoveUndoesAddAroundComments: the round trip is proved for boundaries outside comments or in comments opening after line 0, on documents without tags, with no opening delimiter on the tagged lines. A start before its comment's closing line also needs the line before the comment to lie in no comment; a start on the closing line needs nothing more. Nested layouts, where `TightenStart` or `TightenEnd` insert a further line, are not covered. Idempotence of removal is not claimed in general either: deleting one tag can join the text around it into a new tag.
- The `"/**"` test reads the comment's closing line, exactly as FileParser.java:136 does. The model does not claim that it detects documentation comments.
