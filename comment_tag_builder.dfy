/**
 * CommentTagBuilder: renders the literal text of one AgileReview tag. The
 * builder is fluent and mutable: the role setters and the cleanup setter
 * change its three flags, and `BuildTag` concatenates the grammar's strings
 * according to the flags.
 */
module CommentTags {
  import opened TagGrammar

  /** The builder's configuration: which marker positions are filled and
      whether the tag carries the line-cleanup marker. */
  datatype TagSpec = TagSpec(isStartTag: bool, isEndTag: bool, cleanup: bool)

  /** The optional pieces of a tag: the leading marker of a start tag, the
      trailing marker of an end tag and the cleanup marker. */
  function LeadMarker(g: Grammar, t: TagSpec): (r: string)
    ensures |r| == if t.isStartTag then |g.marker| else 0
  {
    if t.isStartTag then g.marker else ""
  }

  function TrailMarker(g: Grammar, t: TagSpec): (r: string)
    ensures |r| == if t.isEndTag then |g.marker| else 0
  {
    if t.isEndTag then g.marker else ""
  }

  function CleanupMarker(g: Grammar, t: TagSpec): (r: string)
    ensures |r| == if t.cleanup then |g.cleanup| else 0
  {
    if t.cleanup then g.cleanup else ""
  }

  /** The text `buildTag` produces:
      startTag "-" [marker] sep id sep [marker] [cleanup] endTag. */
  function Render(g: Grammar, t: TagSpec, tagId: string): (r: string)
    ensures |r| > |g.startTag| && r[..|g.startTag| + 1] == g.startTag + "-"
    ensures |r| >= |g.endTag| && r[|r| - |g.endTag|..] == g.endTag
    ensures |r| == |g.startTag| + 1 + 2 * |g.sep| + |tagId| + |g.endTag|
                   + (if t.isStartTag then |g.marker| else 0)
                   + (if t.isEndTag then |g.marker| else 0)
                   + (if t.cleanup then |g.cleanup| else 0)
  {
    g.startTag + "-" + LeadMarker(g, t) + g.sep + tagId + g.sep + TrailMarker(g, t) + CleanupMarker(g, t) + g.endTag
  }

  /** The builder of CommentTagBuilder.java: the grammar is fixed at
      construction (the comment delimiters passed in, the markers loaded from
      configuration), the three flags change under the fluent setters. */
  class CommentTagBuilder {
    const grammar: Grammar
    var isStartTag: bool
    var isEndTag: bool
    var cleanupLineWithCommentRemoval: bool

    /** A fresh builder has all three flags false. */
    constructor (g: Grammar)
      ensures grammar == g
      ensures !isStartTag && !isEndTag && !cleanupLineWithCommentRemoval
    {
      grammar := g;
      isStartTag, isEndTag, cleanupLineWithCommentRemoval := false, false, false;
    }

    function Config(): TagSpec
      reads this
    {
      TagSpec(isStartTag, isEndTag, cleanupLineWithCommentRemoval)
    }

    method IsMultilineStartTag() returns (self: CommentTagBuilder)
      modifies this
      ensures self == this
      ensures isStartTag && !isEndTag
      ensures cleanupLineWithCommentRemoval == old(cleanupLineWithCommentRemoval)
    {
      isStartTag := true;
      isEndTag := false;
      self := this;
    }

    method IsMultilineEndTag() returns (self: CommentTagBuilder)
      modifies this
      ensures self == this
      ensures !isStartTag && isEndTag
      ensures cleanupLineWithCommentRemoval == old(cleanupLineWithCommentRemoval)
    {
      isStartTag := false;
      isEndTag := true;
      self := this;
    }

    method IsSingleLine() returns (self: CommentTagBuilder)
      modifies this
      ensures self == this
      ensures isStartTag && isEndTag
      ensures cleanupLineWithCommentRemoval == old(cleanupLineWithCommentRemoval)
    {
      isStartTag := true;
      isEndTag := true;
      self := this;
    }

    method CleanupLineWithCommentRemoval(cleanup: bool) returns (self: CommentTagBuilder)
      modifies this
      ensures self == this
      ensures cleanupLineWithCommentRemoval == cleanup
      ensures isStartTag == old(isStartTag) && isEndTag == old(isEndTag)
    {
      cleanupLineWithCommentRemoval := cleanup;
      self := this;
    }

    /** A function of the builder's state: it changes nothing, so two calls
        with the same id give the same text. */
    function BuildTag(tagId: string): (r: string)
      reads this
      ensures |r| > |grammar.startTag| && r[..|grammar.startTag| + 1] == grammar.startTag + "-"
      ensures |r| >= |grammar.endTag| && r[|r| - |grammar.endTag|..] == grammar.endTag
      ensures r == Render(grammar, Config(), tagId)
    {
      Render(grammar, Config(), tagId)
    }
  }

  /** What a freshly constructed builder renders: neither marker, no cleanup. */
  lemma FreshBuilderTag(g: Grammar, tagId: string)
    ensures Render(g, TagSpec(false, false, false), tagId)
            == g.startTag + "-" + g.sep + tagId + g.sep + g.endTag
  {
  }
}
