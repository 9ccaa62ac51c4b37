/**
 * How the tag builder and the tag pattern fit together: wherever a tag that
 * the builder renders occurs on a line, the pattern built from the same
 * grammar matches there, in full and with the same parts; and the pattern
 * never matches a comment delimiter on its own.
 */
module TagRoundTrip {
  import opened TagGrammar
  import opened CommentTags
  import opened CommentTagRegex

  /** What the engine asks of a tag id for the any-id pattern: non-empty, free
      of the key separator and of line terminators (which `.` does not match). */
  predicate ValidTagId(g: Grammar, tagId: string)
    requires |g.sep| > 0
  {
    |tagId| > 0 && forall x :: 0 <= x < |tagId| ==> tagId[x] != g.sep[0] && !IsLineTerminator(tagId[x])
  }

  /** The optional dash after the opening delimiter. */
  function Dash(dash: bool): (r: string)
    ensures |r| == if dash then 1 else 0
  {
    if dash then "-" else ""
  }

  /** A tag as the pattern accepts it: the rendered text, with the dash kept
      or left out. */
  function Spelled(g: Grammar, dash: bool, t: TagSpec, tagId: string): (r: string)
    ensures dash ==> r == Render(g, t, tagId)
  {
    g.startTag + Dash(dash) + LeadMarker(g, t) + g.sep + tagId + g.sep + TrailMarker(g, t) + CleanupMarker(g, t) + g.endTag
  }

  /** The match the pattern should report for `Spelled(g, dash, t, tagId)` at
      `i`: the dash, the markers and the cleanup marker as spelled, the id
      between the separators and the end right after the closing delimiter. */
  function SpelledMatch(g: Grammar, i: nat, dash: bool, t: TagSpec, tagId: string): (m: TagMatch)
    ensures m.start == i && m.end == i + |Spelled(g, dash, t, tagId)|
    ensures m.idEnd - m.idStart == |tagId|
  {
    var k := i + |g.startTag| + |Dash(dash)| + |LeadMarker(g, t)| + |g.sep|;
    TagMatch(i, i + |Spelled(g, dash, t, tagId)|, dash, t.isStartTag, k, k + |tagId|, t.isEndTag, t.cleanup)
  }

  /** The match for a tag as `buildTag` renders it. */
  function ExpectedMatch(g: Grammar, i: nat, t: TagSpec, tagId: string): (m: TagMatch)
    ensures m.start == i && m.end == i + |Render(g, t, tagId)|
    ensures m.idEnd - m.idStart == |tagId|
    ensures m.dash && m.lead == t.isStartTag && m.trail == t.isEndTag && m.cleanup == t.cleanup
  {
    SpelledMatch(g, i, true, t, tagId)
  }

  /** The literals before the id of a tag occurring at `i`. */
  lemma TagHead(g: Grammar, s: string, i: nat, dash: bool, t: TagSpec, tagId: string)
    requires WellFormed(g)
    requires LitAt(s, i, Spelled(g, dash, t, tagId))
    ensures var m := SpelledMatch(g, i, dash, t, tagId);
      var j := i + |g.startTag| + |Dash(dash)|;
      && LitAt(s, i, g.startTag)
      && LitAt(s, i + |g.startTag|, Dash(dash))
      && (t.isStartTag ==> LitAt(s, j, g.marker))
      && LitAt(s, m.idStart - 1, g.sep)
      && LitAt(s, m.idStart, tagId)
  {
    var x1 := g.startTag + Dash(dash);
    var x2 := x1 + LeadMarker(g, t);
    var x3 := x2 + g.sep;
    var x4 := x3 + tagId;
    var x5 := x4 + g.sep;
    var x6 := x5 + TrailMarker(g, t);
    var x7 := x6 + CleanupMarker(g, t);
    LitAtSplit(s, i, x7, g.endTag);
    LitAtSplit(s, i, x6, CleanupMarker(g, t));
    LitAtSplit(s, i, x5, TrailMarker(g, t));
    LitAtSplit(s, i, x4, g.sep);
    LitAtSplit(s, i, x3, tagId);
    LitAtSplit(s, i, x2, g.sep);
    LitAtSplit(s, i, x1, LeadMarker(g, t));
    LitAtSplit(s, i, g.startTag, Dash(dash));
  }

  /** The literals from the end of the id on of a tag occurring at `i`. */
  lemma TagTail(g: Grammar, s: string, i: nat, dash: bool, t: TagSpec, tagId: string)
    requires WellFormed(g)
    requires LitAt(s, i, Spelled(g, dash, t, tagId))
    ensures var m := SpelledMatch(g, i, dash, t, tagId);
      m.end <= |s| && TailAt(g, s, m)
  {
    var m := SpelledMatch(g, i, dash, t, tagId);
    var x4 := g.startTag + Dash(dash) + LeadMarker(g, t) + g.sep + tagId;
    var y1 := x4 + g.sep;
    var y2 := y1 + TrailMarker(g, t);
    var y3 := y2 + CleanupMarker(g, t);
    LitAtSplit(s, i, y3, g.endTag);
    LitAtSplit(s, i, y2, CleanupMarker(g, t));
    LitAtSplit(s, i, y1, TrailMarker(g, t));
    LitAtSplit(s, i, x4, g.sep);
    assert i + |x4| == m.idEnd;
  }

  /** In a well-formed grammar each flag of a tag can be read back from its
      text wherever it occurs: the leading marker right after `startTag + "-"`,
      the cleanup marker right before `endTag`, and the trailing marker right
      before those two. */
  lemma FlagsReadBack(g: Grammar, s: string, i: nat, t: TagSpec, tagId: string)
    requires WellFormed(g)
    requires LitAt(s, i, Render(g, t, tagId))
    ensures var o := i + |g.startTag| + 1;
      var c := i + |Render(g, t, tagId)| - |g.endTag| - 1;
      var m := c - (if t.cleanup then 1 else 0);
      && (t.isStartTag <==> s[o] == g.marker[0])
      && (t.cleanup <==> s[c] == g.cleanup[0])
      && (t.isEndTag <==> s[m] == g.marker[0])
  {
    TagHead(g, s, i, true, t, tagId);
    TagTail(g, s, i, true, t, tagId);
    var x := ExpectedMatch(g, i, t, tagId);
    var o := i + |g.startTag| + 1;
    assert s[o] == if t.isStartTag then g.marker[0] else g.sep[0];
    var c := i + |Render(g, t, tagId)| - |g.endTag| - 1;
    assert c == x.idEnd + (if t.isEndTag then 1 else 0) + (if t.cleanup then 1 else 0);
    assert s[x.idEnd] == g.sep[0];
    assert t.isEndTag ==> s[x.idEnd + 1] == g.marker[0];
    assert t.cleanup ==> s[c] == g.cleanup[0];
  }

  /** The reluctant id stops at the first separator followed by a complete tag
      tail: with no separator inside the id, shorter ids all fail. */
  lemma {:induction false} LazyIdReaches(g: Grammar, s: string, i: nat, dash: bool, lead: bool, k: nat, e: nat, target: nat)
    requires |g.sep| == 1
    requires k < e <= target <= |s|
    requires forall x :: k <= x < target ==> s[x] != g.sep[0] && !IsLineTerminator(s[x])
    requires AfterId(g, s, i, dash, lead, k, target).Some?
    decreases target - e
    ensures LazyId(g, s, i, dash, lead, k, e) == AfterId(g, s, i, dash, lead, k, target)
  {
    if e < target {
      assert s[e] != g.sep[0];
      assert !LitAt(s, e, g.sep);
      LazyIdReaches(g, s, i, dash, lead, k, e + 1, target);
    }
  }

  /** The sub-pattern after the id takes exactly the trailing marker and the
      cleanup marker that the tag has. */
  lemma TailMatches(g: Grammar, s: string, i: nat, dash: bool, t: TagSpec, tagId: string)
    requires WellFormed(g)
    requires LitAt(s, i, Spelled(g, dash, t, tagId))
    ensures var m := SpelledMatch(g, i, dash, t, tagId);
      AfterId(g, s, i, dash, t.isStartTag, m.idStart, m.idEnd) == Some(m)
  {
    var m := SpelledMatch(g, i, dash, t, tagId);
    TagTail(g, s, i, dash, t, tagId);
    var pos := m.idEnd + 1;
    var p6 := pos + (if t.isEndTag then 1 else 0);
    var p7 := p6 + (if t.cleanup then 1 else 0);
    assert s[p7] == g.endTag[0];
    if !t.cleanup {
      assert !LitAt(s, p6, g.cleanup);
    }
    assert Tail(g, s, i, dash, t.isStartTag, m.idStart, m.idEnd, t.isEndTag, p6) == Some(m);
    if !t.isEndTag {
      assert !LitAt(s, pos, g.marker);
    }
  }

  /** The optional leading marker: taken when the text has it, skipped when
      the separator follows directly. */
  lemma LeadStep(g: Grammar, p: IdPattern, s: string, i: nat, dash: bool, j: nat, lead: bool, m: TagMatch)
    requires WellFormed(g)
    requires lead ==> LitAt(s, j, g.marker) && AfterLead(g, p, s, i, dash, true, j + 1) == Some(m)
    requires !lead ==> LitAt(s, j, g.sep) && AfterLead(g, p, s, i, dash, false, j) == Some(m)
    ensures AfterDash(g, p, s, i, dash, j) == Some(m)
  {
    if !lead {
      assert s[j] == g.sep[0];
      assert !LitAt(s, j, g.marker);
    }
  }

  /** The opening delimiter and the optional dash: when the text has the dash
      it is taken, and when it has none and the next character is no dash
      either, it is skipped; either way the rest matches after it. */
  lemma DashStep(g: Grammar, p: IdPattern, s: string, i: nat, dash: bool, m: TagMatch)
    requires LitAt(s, i, g.startTag)
    requires dash ==> LitAt(s, i + |g.startTag|, "-")
    requires !dash ==> i + |g.startTag| < |s| && s[i + |g.startTag|] != '-'
    requires AfterDash(g, p, s, i, dash, i + |g.startTag| + |Dash(dash)|) == Some(m)
    ensures MatchAt(g, p, s, i) == Some(m)
  {
    if !dash {
      assert !LitAt(s, i + |g.startTag|, "-");
    }
  }

  /** The part of the pattern before the id takes the dash and the leading
      marker exactly as spelled; so once the rest matches from the first
      separator on, the whole pattern matches. */
  lemma HeadMatches(g: Grammar, p: IdPattern, s: string, i: nat, dash: bool, t: TagSpec, tagId: string)
    requires WellFormed(g)
    requires dash || (g.marker[0] != '-' && g.sep[0] != '-')
    requires LitAt(s, i, Spelled(g, dash, t, tagId))
    requires var m := SpelledMatch(g, i, dash, t, tagId);
      AfterLead(g, p, s, i, dash, t.isStartTag, m.idStart - 1) == Some(m)
    ensures MatchAt(g, p, s, i) == Some(SpelledMatch(g, i, dash, t, tagId))
  {
    var m := SpelledMatch(g, i, dash, t, tagId);
    TagHead(g, s, i, dash, t, tagId);
    var j := i + |g.startTag| + |Dash(dash)|;
    assert m.idStart - 1 == j + (if t.isStartTag then 1 else 0);
    if !dash {
      assert s[j] == if t.isStartTag then g.marker[0] else g.sep[0];
    }
    LeadStep(g, p, s, i, dash, j, t.isStartTag, m);
    DashStep(g, p, s, i, dash, m);
  }

  /** A literal id found right after the first separator hands over to the
      rest of the pattern at the end of the id. */
  lemma LiteralLead(g: Grammar, s: string, i: nat, dash: bool, lead: bool, tagId: string, k: nat, m: TagMatch)
    requires |g.sep| == 1 && k >= 1
    requires LitAt(s, k - 1, g.sep) && LitAt(s, k, tagId)
    requires AfterId(g, s, i, dash, lead, k, k + |tagId|) == Some(m)
    ensures AfterLead(g, LiteralId(tagId), s, i, dash, lead, k - 1) == Some(m)
  {
    assert k - 1 + |g.sep| == k;
  }

  /** Likewise for the reluctant any-id: it stops at the end of an id that
      holds no separator. */
  lemma AnyLead(g: Grammar, s: string, i: nat, dash: bool, lead: bool, k: nat, e: nat, m: TagMatch)
    requires |g.sep| == 1 && 1 <= k < e <= |s|
    requires LitAt(s, k - 1, g.sep)
    requires forall x :: k <= x < e ==> s[x] != g.sep[0] && !IsLineTerminator(s[x])
    requires AfterId(g, s, i, dash, lead, k, e) == Some(m)
    ensures AfterLead(g, AnyId, s, i, dash, lead, k - 1) == Some(m)
  {
    assert k - 1 + |g.sep| == k;
    LazyIdReaches(g, s, i, dash, lead, k, k + 1, e);
  }

  /** Every spelling the any-id pattern describes is matched in full where it
      occurs, with the optional parts exactly as spelled. */
  lemma SpelledTagMatchesAnyId(g: Grammar, s: string, i: nat, dash: bool, t: TagSpec, tagId: string)
    requires WellFormed(g) && ValidTagId(g, tagId)
    requires dash || (g.marker[0] != '-' && g.sep[0] != '-')
    requires LitAt(s, i, Spelled(g, dash, t, tagId))
    ensures MatchAt(g, AnyId, s, i) == Some(SpelledMatch(g, i, dash, t, tagId))
  {
    var m := SpelledMatch(g, i, dash, t, tagId);
    TagHead(g, s, i, dash, t, tagId);
    TailMatches(g, s, i, dash, t, tagId);
    LitAtChars(s, m.idStart, tagId);
    forall x | m.idStart <= x < m.idEnd
      ensures s[x] != g.sep[0] && !IsLineTerminator(s[x])
    {
      assert s[m.idStart + (x - m.idStart)] == tagId[x - m.idStart];
    }
    AnyLead(g, s, i, dash, t.isStartTag, m.idStart, m.idEnd, m);
    HeadMatches(g, AnyId, s, i, dash, t, tagId);
  }

  /** Likewise for the literal-id pattern, for any id. */
  lemma SpelledTagMatchesLiteralId(g: Grammar, s: string, i: nat, dash: bool, t: TagSpec, tagId: string)
    requires WellFormed(g)
    requires dash || (g.marker[0] != '-' && g.sep[0] != '-')
    requires LitAt(s, i, Spelled(g, dash, t, tagId))
    ensures MatchAt(g, LiteralId(tagId), s, i) == Some(SpelledMatch(g, i, dash, t, tagId))
  {
    var m := SpelledMatch(g, i, dash, t, tagId);
    TagHead(g, s, i, dash, t, tagId);
    TailMatches(g, s, i, dash, t, tagId);
    LiteralLead(g, s, i, dash, t.isStartTag, tagId, m.idStart, m);
    HeadMatches(g, LiteralId(tagId), s, i, dash, t, tagId);
  }

  /** Round trip through the any-id pattern: wherever a rendered tag occurs,
      the pattern anchored there matches it in full, with the dash, both
      markers, the cleanup marker and the id exactly as rendered. */
  lemma RenderedTagMatchesAnyId(g: Grammar, s: string, i: nat, t: TagSpec, tagId: string)
    requires WellFormed(g) && ValidTagId(g, tagId)
    requires LitAt(s, i, Render(g, t, tagId))
    ensures MatchAt(g, AnyId, s, i) == Some(ExpectedMatch(g, i, t, tagId))
  {
    SpelledTagMatchesAnyId(g, s, i, true, t, tagId);
  }

  /** Round trip through the literal-id pattern of `removeTags(tagId)`: any
      id, even one holding separators or regex metacharacters, is matched
      literally. */
  lemma RenderedTagMatchesLiteralId(g: Grammar, s: string, i: nat, t: TagSpec, tagId: string)
    requires WellFormed(g)
    requires LitAt(s, i, Render(g, t, tagId))
    ensures MatchAt(g, LiteralId(tagId), s, i) == Some(ExpectedMatch(g, i, t, tagId))
  {
    SpelledTagMatchesLiteralId(g, s, i, true, t, tagId);
  }

  /** The dash is optional: a tag spelled without it, which `buildTag` never
      produces, is matched as well (with `dash` false), so the pattern
      accepts more than the builder emits. */
  lemma DashlessTagMatches(g: Grammar, s: string, i: nat, t: TagSpec, tagId: string)
    requires WellFormed(g) && ValidTagId(g, tagId)
    requires g.marker[0] != '-' && g.sep[0] != '-'
    requires LitAt(s, i, Spelled(g, false, t, tagId))
    ensures MatchAt(g, AnyId, s, i) == Some(SpelledMatch(g, i, false, t, tagId))
    ensures forall t2: TagSpec, id2: string :: Spelled(g, false, t, tagId) != Render(g, t2, id2)
  {
    SpelledTagMatchesAnyId(g, s, i, false, t, tagId);
    var d := Spelled(g, false, t, tagId);
    assert d[|g.startTag|] == if t.isStartTag then g.marker[0] else g.sep[0];
    forall t2: TagSpec, id2: string
      ensures d != Render(g, t2, id2)
    {
      var r := Render(g, t2, id2);
      assert r[..|g.startTag| + 1][|g.startTag|] == '-';
    }
  }

  /** What `removeTags` and a reader of tags see through the any-id pattern:
      group 0 is the whole rendered tag, group 1 is captured exactly for a
      start tag, group 2 is the id, group 3 is captured exactly for an end tag
      and group 4 carries the cleanup marker exactly when the tag does. */
  lemma RenderedTagGroupsAnyId(g: Grammar, s: string, i: nat, t: TagSpec, tagId: string)
    requires WellFormed(g) && ValidTagId(g, tagId)
    requires LitAt(s, i, Render(g, t, tagId))
    ensures var r := MatchAt(g, AnyId, s, i);
      && r.Some? && r.value.end <= |s|
      && Group(g, AnyId, s, r.value, 0) == Some(Render(g, t, tagId))
      && Group(g, AnyId, s, r.value, 1) == (if t.isStartTag then Some(g.marker) else None)
      && Group(g, AnyId, s, r.value, 2) == Some(tagId)
      && Group(g, AnyId, s, r.value, 3) == (if t.isEndTag then Some(g.marker) else None)
      && Group(g, AnyId, s, r.value, 4) == (if t.cleanup then Some(g.cleanup) else None)
  {
    RenderedTagMatchesAnyId(g, s, i, t, tagId);
    TagHead(g, s, i, true, t, tagId);
    TagTail(g, s, i, true, t, tagId);
    var m := ExpectedMatch(g, i, t, tagId);
    LitAtSlice(s, i, Render(g, t, tagId));
    LitAtSlice(s, m.idStart, tagId);
  }

  /** The same through the literal-id pattern, whose groups are numbered one
      lower from the id on: group 1 leading marker, group 2 trailing marker,
      group 3 cleanup marker. */
  lemma RenderedTagGroupsLiteralId(g: Grammar, s: string, i: nat, t: TagSpec, tagId: string)
    requires WellFormed(g)
    requires LitAt(s, i, Render(g, t, tagId))
    ensures var r := MatchAt(g, LiteralId(tagId), s, i);
      && r.Some? && r.value.end <= |s|
      && Group(g, LiteralId(tagId), s, r.value, 0) == Some(Render(g, t, tagId))
      && Group(g, LiteralId(tagId), s, r.value, 1) == (if t.isStartTag then Some(g.marker) else None)
      && Group(g, LiteralId(tagId), s, r.value, 2) == (if t.isEndTag then Some(g.marker) else None)
      && Group(g, LiteralId(tagId), s, r.value, 3) == (if t.cleanup then Some(g.cleanup) else None)
  {
    RenderedTagMatchesLiteralId(g, s, i, t, tagId);
    TagTail(g, s, i, true, t, tagId);
    LitAtSlice(s, i, Render(g, t, tagId));
  }

  /** The group FileParser reads, `3 + groupIncrement`, is the cleanup group
      under both patterns. */
  lemma CleanupGroupOfRenderedTag(g: Grammar, p: IdPattern, s: string, i: nat, t: TagSpec, tagId: string)
    requires WellFormed(g)
    requires p == AnyId || p == LiteralId(tagId)
    requires p == AnyId ==> ValidTagId(g, tagId)
    requires LitAt(s, i, Render(g, t, tagId))
    ensures var r := MatchAt(g, p, s, i);
      && r.Some? && r.value.end <= |s|
      && Group(g, p, s, r.value, 3 + GroupIncrement(p)) == (if t.cleanup then Some(g.cleanup) else None)
  {
    if p == AnyId {
      RenderedTagGroupsAnyId(g, s, i, t, tagId);
    } else {
      RenderedTagGroupsLiteralId(g, s, i, t, tagId);
    }
  }
}

