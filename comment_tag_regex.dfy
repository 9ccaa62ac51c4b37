/**
 * CommentTagRegexBuilder: the pattern that recognises AgileReview tags,
 *
 *   quote(startTag) -? (quote(marker))? quote(sep) ID quote(sep)
 *     (quote(marker))? (quote(cleanup))? quote(endTag)
 *
 * where ID is `(.+?)` for the any-id pattern and `quote(tagId)` for one
 * literal id. Rather than a general regular-expression engine, this module
 * models that one shape as a recogniser that explores the alternatives in the
 * order java.util.regex backtracks through them: each `?` tries the present
 * alternative first, the reluctant `.+?` tries the shortest id first, `find`
 * returns the leftmost match and `replaceAll("")` deletes the successive
 * non-overlapping leftmost matches. Every literal of the grammar is compared
 * as a plain string, which is what `Pattern.quote` achieves.
 */
module CommentTagRegex {
  import opened TagGrammar

  datatype Option<T> = None | Some(value: T)

  /** The id part of the pattern: `(.+?)` or a quoted literal id. */
  datatype IdPattern = AnyId | LiteralId(id: string)

  /** The regex text `buildTagRegex()` passes as its tag id. */
  const AnyIdRegex := "(.+?)"

  /** `buildTagRegex(tagId, isRegex)`. A caller-supplied regex other than the
      any-id group is outside this model, hence `None`. */
  function BuildTagRegex(tagId: string, isRegex: bool): (p: Option<IdPattern>)
    ensures !isRegex ==> p == Some(LiteralId(tagId))
    ensures isRegex ==> (p.Some? <==> tagId == AnyIdRegex) && (p.Some? ==> p.value == AnyId)
  {
    if !isRegex then Some(LiteralId(tagId))
    else if tagId == AnyIdRegex then Some(AnyId)
    else None
  }

  /** `buildTagRegex()`. */
  function BuildAnyTagRegex(): (p: IdPattern)
    ensures Some(p) == BuildTagRegex(AnyIdRegex, true)
  {
    AnyId
  }

  /** One match: where it starts and ends, which optional parts were taken,
      and where the id lies. */
  datatype TagMatch = TagMatch(
    start: nat, end: nat,
    dash: bool, lead: bool,
    idStart: nat, idEnd: nat,
    trail: bool, cleanup: bool)

  /** The ids the id part admits: `.+` is one or more characters, none a line
      terminator; a quoted id is exactly itself. */
  predicate IdAllowed(p: IdPattern, id: string)
  {
    match p
    case AnyId => |id| > 0 && forall x :: 0 <= x < |id| ==> !IsLineTerminator(id[x])
    case LiteralId(lit) => id == lit
  }

  /** The part of a match from the end of the id on:
      sep (marker)? (cleanup)? endTag, with the choices recorded in `m`. */
  ghost predicate TailAt(g: Grammar, s: string, m: TagMatch)
  {
    var p5 := m.idEnd + |g.sep|;
    var p6 := p5 + (if m.trail then |g.marker| else 0);
    var p7 := p6 + (if m.cleanup then |g.cleanup| else 0);
    && LitAt(s, m.idEnd, g.sep)
    && (m.trail ==> LitAt(s, p5, g.marker))
    && (m.cleanup ==> LitAt(s, p6, g.cleanup))
    && LitAt(s, p7, g.endTag)
    && m.end == p7 + |g.endTag|
  }

  /** The part of a match from the optional leading marker at `j` on: the
      marker if taken, the separator, an id the id part admits, and the tail. */
  ghost predicate FromLead(g: Grammar, p: IdPattern, s: string, j: nat, m: TagMatch)
  {
    var p3 := j + (if m.lead then |g.marker| else 0);
    && (m.lead ==> LitAt(s, j, g.marker))
    && LitAt(s, p3, g.sep)
    && m.idStart == p3 + |g.sep| <= m.idEnd <= |s|
    && IdAllowed(p, s[m.idStart..m.idEnd])
    && TailAt(g, s, m)
  }

  /** What every match found at `i` satisfies: each literal of the pattern
      stands at its place, the id between the separators is admitted by the id
      part, and the match ends right after the closing delimiter. */
  ghost predicate Sound(g: Grammar, p: IdPattern, s: string, i: nat, m: TagMatch)
  {
    var j := i + |g.startTag|;
    && m.start == i
    && LitAt(s, i, g.startTag)
    && (m.dash ==> LitAt(s, j, "-"))
    && FromLead(g, p, s, j + (if m.dash then 1 else 0), m)
  }

  /** `(cleanup)? endTag` at `pos`. */
  function Tail(g: Grammar, s: string, i: nat, dash: bool, lead: bool, k: nat, e: nat, trail: bool, pos: nat)
    : (r: Option<TagMatch>)
    ensures r.Some? ==> r.value == TagMatch(i, r.value.end, dash, lead, k, e, trail, r.value.cleanup)
    ensures r.Some? ==> (r.value.cleanup ==> LitAt(s, pos, g.cleanup))
    ensures r.Some? ==> (var p7 := pos + (if r.value.cleanup then |g.cleanup| else 0);
                         LitAt(s, p7, g.endTag) && r.value.end == p7 + |g.endTag|)
  {
    if LitAt(s, pos, g.cleanup) && LitAt(s, pos + |g.cleanup|, g.endTag) then
      Some(TagMatch(i, pos + |g.cleanup| + |g.endTag|, dash, lead, k, e, trail, true))
    else if LitAt(s, pos, g.endTag) then
      Some(TagMatch(i, pos + |g.endTag|, dash, lead, k, e, trail, false))
    else None
  }

  /** `sep (marker)? (cleanup)? endTag` once the id ends at `e`. */
  function AfterId(g: Grammar, s: string, i: nat, dash: bool, lead: bool, k: nat, e: nat): (r: Option<TagMatch>)
    ensures r.Some? ==> (r.value.start == i && r.value.dash == dash && r.value.lead == lead
                         && r.value.idStart == k && r.value.idEnd == e)
    ensures r.Some? ==> TailAt(g, s, r.value)
  {
    if !LitAt(s, e, g.sep) then None
    else
      var pos := e + |g.sep|;
      var withTrail := if LitAt(s, pos, g.marker) then Tail(g, s, i, dash, lead, k, e, true, pos + |g.marker|) else None;
      if withTrail.Some? then withTrail else Tail(g, s, i, dash, lead, k, e, false, pos)
  }

  /** The reluctant `.+?` starting at `k`: the id `s[k..e]` is tried, and only if
      the rest fails is it extended by one more character. */
  function LazyId(g: Grammar, s: string, i: nat, dash: bool, lead: bool, k: nat, e: nat): (r: Option<TagMatch>)
    requires k < e
    requires forall x :: k <= x < e - 1 && x < |s| ==> !IsLineTerminator(s[x])
    decreases |s| + 1 - e
    ensures r.Some? ==> (r.value.start == i && r.value.dash == dash && r.value.lead == lead
                         && r.value.idStart == k && e <= r.value.idEnd <= |s|)
    ensures r.Some? ==> forall x :: k <= x < r.value.idEnd ==> !IsLineTerminator(s[x])
    ensures r.Some? ==> TailAt(g, s, r.value)
  {
    if e > |s| || IsLineTerminator(s[e - 1]) then None
    else
      var r := AfterId(g, s, i, dash, lead, k, e);
      if r.Some? then r else LazyId(g, s, i, dash, lead, k, e + 1)
  }

  /** `sep ID sep ...` once the optional leading marker is settled. */
  function AfterLead(g: Grammar, p: IdPattern, s: string, i: nat, dash: bool, lead: bool, j: nat): (r: Option<TagMatch>)
    ensures r.Some? ==> r.value.start == i && r.value.dash == dash && r.value.lead == lead
    ensures r.Some? ==> (LitAt(s, j, g.sep) && r.value.idStart == j + |g.sep| <= r.value.idEnd <= |s|)
    ensures r.Some? ==> IdAllowed(p, s[r.value.idStart..r.value.idEnd])
    ensures r.Some? ==> TailAt(g, s, r.value)
  {
    if !LitAt(s, j, g.sep) then None
    else
      var k := j + |g.sep|;
      match p
      case LiteralId(id) =>
        if LitAt(s, k, id) then LitAtSlice(s, k, id); AfterId(g, s, i, dash, lead, k, k + |id|) else None
      case AnyId =>
        LazyId(g, s, i, dash, lead, k, k + 1)
  }

  /** `(marker)? sep ...` once the optional dash is settled. */
  function AfterDash(g: Grammar, p: IdPattern, s: string, i: nat, dash: bool, j: nat): (r: Option<TagMatch>)
    ensures r.Some? ==> r.value.start == i && r.value.dash == dash && FromLead(g, p, s, j, r.value)
  {
    var withLead := if LitAt(s, j, g.marker) then AfterLead(g, p, s, i, dash, true, j + |g.marker|) else None;
    if withLead.Some? then withLead else AfterLead(g, p, s, i, dash, false, j)
  }

  /** The pattern anchored at position `i`: the first alternative, in
      backtracking order, that matches. */
  function MatchAt(g: Grammar, p: IdPattern, s: string, i: nat): (r: Option<TagMatch>)
    ensures r.Some? ==> Sound(g, p, s, i, r.value)
  {
    if !LitAt(s, i, g.startTag) then None
    else
      var j := i + |g.startTag|;
      var withDash := if LitAt(s, j, "-") then AfterDash(g, p, s, i, true, j + 1) else None;
      if withDash.Some? then withDash else AfterDash(g, p, s, i, false, j)
  }

  /** `Matcher.find` from position `from`: the leftmost match. */
  function Find(g: Grammar, p: IdPattern, s: string, from: nat): (r: Option<TagMatch>)
    decreases |s| + 1 - from
    ensures r.Some? ==> from <= r.value.start <= |s|
  {
    if from > |s| then None
    else
      var m := MatchAt(g, p, s, from);
      if m.Some? then m else Find(g, p, s, from + 1)
  }

  /** What `find` reports is the match of the pattern at the reported position. */
  lemma {:induction false} FindMatches(g: Grammar, p: IdPattern, s: string, from: nat)
    decreases |s| + 1 - from
    ensures var r := Find(g, p, s, from);
      r.Some? ==> MatchAt(g, p, s, r.value.start) == r
  {
    if from <= |s| && MatchAt(g, p, s, from).None? {
      FindMatches(g, p, s, from + 1);
    }
  }

  /** `find` reports the leftmost match: the pattern matches at no position
      before the one reported (at none at all when nothing is found). */
  lemma {:induction false} FindLeftmost(g: Grammar, p: IdPattern, s: string, from: nat)
    decreases |s| + 1 - from
    ensures var r := Find(g, p, s, from);
      forall j :: from <= j <= |s| && (r.None? || j < r.value.start) ==> MatchAt(g, p, s, j).None?
  {
    if from <= |s| && MatchAt(g, p, s, from).None? {
      FindLeftmost(g, p, s, from + 1);
    }
  }

  /** Once the id ends where a sound match's id ends, the rest of the
      pattern matches. */
  lemma AfterIdComplete(g: Grammar, s: string, i: nat, dash: bool, lead: bool, k: nat, m: TagMatch)
    requires TailAt(g, s, m)
    ensures AfterId(g, s, i, dash, lead, k, m.idEnd).Some?
  {
    var pos := m.idEnd + |g.sep|;
    if m.trail {
      assert Tail(g, s, i, dash, lead, k, m.idEnd, true, pos + |g.marker|).Some?;
    } else {
      assert Tail(g, s, i, dash, lead, k, m.idEnd, false, pos).Some?;
    }
  }

  /** The reluctant id, tried from `e` on, reaches an end at the latest
      where a sound match's id ends. */
  lemma {:induction false} LazyIdComplete(g: Grammar, s: string, i: nat, dash: bool, lead: bool, k: nat, e: nat, m: TagMatch)
    requires k < e <= m.idEnd <= |s|
    requires forall x :: k <= x < m.idEnd ==> !IsLineTerminator(s[x])
    requires TailAt(g, s, m)
    decreases m.idEnd - e
    ensures LazyId(g, s, i, dash, lead, k, e).Some?
  {
    if e == m.idEnd {
      AfterIdComplete(g, s, i, dash, lead, k, m);
    } else {
      LazyIdComplete(g, s, i, dash, lead, k, e + 1, m);
    }
  }

  /** From the separator before the id on, a sound match is found. */
  lemma AfterLeadComplete(g: Grammar, p: IdPattern, s: string, i: nat, dash: bool, lead: bool, j: nat, m: TagMatch)
    requires LitAt(s, j, g.sep) && m.idStart == j + |g.sep| <= m.idEnd <= |s|
    requires IdAllowed(p, s[m.idStart..m.idEnd]) && TailAt(g, s, m)
    ensures AfterLead(g, p, s, i, dash, lead, j).Some?
  {
    match p
    case LiteralId(lit) =>
      LiteralIdComplete(g, s, i, dash, lead, lit, m);
    case AnyId =>
      AnyIdComplete(g, s, i, dash, lead, m);
  }

  /** A quoted id that a sound match holds is matched, and the rest after it. */
  lemma LiteralIdComplete(g: Grammar, s: string, i: nat, dash: bool, lead: bool, lit: string, m: TagMatch)
    requires m.idStart <= m.idEnd <= |s| && s[m.idStart..m.idEnd] == lit && TailAt(g, s, m)
    ensures LitAt(s, m.idStart, lit) && AfterId(g, s, i, dash, lead, m.idStart, m.idStart + |lit|).Some?
  {
    var id := s[m.idStart..m.idEnd];
    LitAtChars(s, m.idStart, lit);
    forall y | 0 <= y < |lit|
      ensures s[m.idStart + y] == lit[y]
    {
      assert id[y] == s[m.idStart + y];
    }
    AfterIdComplete(g, s, i, dash, lead, m.idStart, m);
  }

  /** The reluctant id group reaches the end of a sound match's id. */
  lemma AnyIdComplete(g: Grammar, s: string, i: nat, dash: bool, lead: bool, m: TagMatch)
    requires m.idStart <= m.idEnd <= |s| && IdAllowed(AnyId, s[m.idStart..m.idEnd]) && TailAt(g, s, m)
    ensures LazyId(g, s, i, dash, lead, m.idStart, m.idStart + 1).Some?
  {
    var id := s[m.idStart..m.idEnd];
    forall x | m.idStart <= x < m.idEnd
      ensures !IsLineTerminator(s[x])
    {
      assert id[x - m.idStart] == s[x];
    }
    LazyIdComplete(g, s, i, dash, lead, m.idStart, m.idStart + 1, m);
  }

  /** From the optional leading marker on, a sound match is found. */
  lemma AfterDashComplete(g: Grammar, p: IdPattern, s: string, i: nat, dash: bool, j: nat, m: TagMatch)
    requires FromLead(g, p, s, j, m)
    ensures AfterDash(g, p, s, i, dash, j).Some?
  {
    AfterLeadComplete(g, p, s, i, dash, m.lead, j + (if m.lead then |g.marker| else 0), m);
  }

  /** The recogniser misses no tag: wherever a sound match exists, `MatchAt`
      finds one (the first in backtracking order, which need not be it). */
  lemma MatchAtComplete(g: Grammar, p: IdPattern, s: string, i: nat, m: TagMatch)
    requires Sound(g, p, s, i, m)
    ensures MatchAt(g, p, s, i).Some?
  {
    var j := i + |g.startTag|;
    if m.dash {
      AfterDashComplete(g, p, s, i, true, j + 1, m);
    } else {
      AfterDashComplete(g, p, s, i, false, j, m);
    }
  }

  /** `find` reports the leftmost tag-shaped text: there is no sound match at
      any position before the one reported, nor at any position at all when
      nothing is reported. */
  lemma FindComplete(g: Grammar, p: IdPattern, s: string, from: nat)
    ensures var r := Find(g, p, s, from);
      forall j: nat, m: TagMatch :: from <= j && (r.None? || j < r.value.start) ==> !Sound(g, p, s, j, m)
  {
    var r := Find(g, p, s, from);
    FindLeftmost(g, p, s, from);
    forall j: nat, m: TagMatch | from <= j && (r.None? || j < r.value.start)
      ensures !Sound(g, p, s, j, m)
    {
      if Sound(g, p, s, j, m) {
        MatchAtComplete(g, p, s, j, m);
      }
    }
  }

  /** `Matcher.replaceAll("")` from position `from`: every match found in turn
      is deleted and the text between matches is kept. A match is never empty,
      so the scan always advances. */
  function RemoveAll(g: Grammar, p: IdPattern, s: string, from: nat): (r: string)
    requires ValidGrammar(g)
    requires from <= |s|
    decreases |s| - from
    ensures |r| <= |s| - from
  {
    match Find(g, p, s, from)
    case None => s[from..]
    case Some(m) =>
      FindMatches(g, p, s, from);
      MatchShape(g, p, s, m.start);
      s[from..m.start] + RemoveAll(g, p, s, m.end)
  }

  /** `tagPattern.matcher(line).replaceAll("")`. */
  function ReplaceAllTags(g: Grammar, p: IdPattern, line: string): (r: string)
    requires ValidGrammar(g)
    ensures |r| <= |line|
  {
    RemoveAll(g, p, line, 0)
  }

  /** A line without a tag comes out of `replaceAll` unchanged. */
  lemma UntaggedLineUnchanged(g: Grammar, p: IdPattern, line: string)
    requires ValidGrammar(g) && Find(g, p, line, 0).None?
    ensures ReplaceAllTags(g, p, line) == line
  {
    assert line[0..] == line;
  }

  /** A line holding no tag-shaped text at all comes out of `replaceAll`
      unchanged. */
  lemma TaglessLineUnchanged(g: Grammar, p: IdPattern, line: string)
    requires ValidGrammar(g)
    requires forall j: nat, m: TagMatch :: !Sound(g, p, line, j, m)
    ensures Find(g, p, line, 0).None?
    ensures ReplaceAllTags(g, p, line) == line
  {
    var r := Find(g, p, line, 0);
    if r.Some? {
      FindMatches(g, p, line, 0);
      assert false;
    }
    UntaggedLineUnchanged(g, p, line);
  }

  /** `Matcher.group(n)` of a match, numbered by opening parenthesis: in the
      any-id pattern (1) leading marker, (2) id, (3) trailing marker,
      (4) cleanup marker; with a quoted id (1) leading marker, (2) trailing
      marker, (3) cleanup marker. An optional group that took no part yields
      `None` (Java's null); a group number the pattern lacks also yields `None`
      where Java throws. */
  function Group(g: Grammar, p: IdPattern, s: string, m: TagMatch, n: nat): Option<string>
    requires m.start <= m.end <= |s| && m.idStart <= m.idEnd <= |s|
  {
    if n == 0 then Some(s[m.start..m.end])
    else if n == 1 then (if m.lead then Some(g.marker) else None)
    else match p
      case AnyId =>
        if n == 2 then Some(s[m.idStart..m.idEnd])
        else if n == 3 then (if m.trail then Some(g.marker) else None)
        else if n == 4 then (if m.cleanup then Some(g.cleanup) else None)
        else None
      case LiteralId(_) =>
        if n == 2 then (if m.trail then Some(g.marker) else None)
        else if n == 3 then (if m.cleanup then Some(g.cleanup) else None)
        else None
  }

  /** The `groupIncrement` FileParser passes along with each pattern. */
  function GroupIncrement(p: IdPattern): nat
  {
    if p.AnyId? then 1 else 0
  }

  /** The shape of every match: the opening delimiter where it starts, a
      separator on each side of the id (non-empty for the any-id pattern),
      the closing delimiter where it ends; hence it is at least as long as the
      two delimiters and two separators together. */
  lemma MatchShape(g: Grammar, p: IdPattern, s: string, i: nat)
    requires MatchAt(g, p, s, i).Some?
    ensures var m := MatchAt(g, p, s, i).value;
      && LitAt(s, i, g.startTag)
      && m.idStart >= i + |g.startTag| + |g.sep|
      && LitAt(s, m.idStart - |g.sep|, g.sep)
      && LitAt(s, m.idEnd, g.sep)
      && m.idStart <= m.idEnd
      && (p.AnyId? ==> m.idStart < m.idEnd)
      && m.end >= m.idEnd + |g.sep| + |g.endTag|
      && LitAt(s, m.end - |g.endTag|, g.endTag)
      && i + |g.startTag| + 2 * |g.sep| + |g.endTag| <= m.end <= |s|
  {
    SoundShape(g, p, s, i, MatchAt(g, p, s, i).value);
  }

  /** The same, read off the description of a match. */
  lemma SoundShape(g: Grammar, p: IdPattern, s: string, i: nat, m: TagMatch)
    requires Sound(g, p, s, i, m)
    ensures && LitAt(s, i, g.startTag)
      && m.idStart >= i + |g.startTag| + |g.sep|
      && LitAt(s, m.idStart - |g.sep|, g.sep)
      && LitAt(s, m.idEnd, g.sep)
      && m.idStart <= m.idEnd
      && (p.AnyId? ==> m.idStart < m.idEnd)
      && m.end >= m.idEnd + |g.sep| + |g.endTag|
      && LitAt(s, m.end - |g.endTag|, g.endTag)
      && i + |g.startTag| + 2 * |g.sep| + |g.endTag| <= m.end <= |s|
  {
    var j := i + |g.startTag| + (if m.dash then 1 else 0);
    assert FromLead(g, p, s, j, m);
    var p5 := m.idEnd + |g.sep|;
    var p6 := p5 + (if m.trail then |g.marker| else 0);
    var p7 := p6 + (if m.cleanup then |g.cleanup| else 0);
    assert LitAt(s, p7, g.endTag) && m.end == p7 + |g.endTag|;
  }

  /** A comment delimiter on its own, or an empty comment, is never taken for
      a tag: `find` fails and `replaceAll` leaves it alone. */
  lemma BareDelimitersNeverMatch(g: Grammar, p: IdPattern, s: string)
    requires ValidGrammar(g)
    requires s == g.startTag || s == g.endTag || s == g.startTag + g.endTag
    ensures Find(g, p, s, 0).None?
    ensures ReplaceAllTags(g, p, s) == s
  {
    var r := Find(g, p, s, 0);
    if r.Some? {
      FindMatches(g, p, s, 0);
      MatchShape(g, p, s, r.value.start);
      assert false;
    }
    UntaggedLineUnchanged(g, p, s);
  }
}

