/**
 * The literal alphabet of AgileReview tags: the two multi-line comment
 * delimiters of the annotated file's language and the three configured
 * marker strings. This is the state every tag builder shares (the fields of
 * TagBuilder), together with the few string primitives of java.lang.String
 * that the tag engine relies on.
 */
module TagGrammar {

  /** The fields of TagBuilder: `startTag`/`endTag` are the comment
      delimiters (e.g. "/*" and "*/"), the other three come from configuration. */
  datatype Grammar = Grammar(
    startTag: string,   // multi-line comment start sign
    endTag: string,     // multi-line comment end sign
    marker: string,     // start / end tag marker
    sep: string,        // key separator around the tag id
    cleanup: string)    // line removal marker

  /** What the engine silently relies on: none of the five strings is empty. */
  predicate ValidGrammar(g: Grammar)
  {
    |g.startTag| > 0 && |g.endTag| > 0 && |g.marker| > 0 && |g.sep| > 0 && |g.cleanup| > 0
  }

  /** A grammar in which a rendered tag can be decoded unambiguously: the three
      markers are single, pairwise distinct characters and the closing
      delimiter does not begin with the start/end marker or the cleanup marker. */
  predicate WellFormed(g: Grammar)
  {
    && ValidGrammar(g)
    && |g.marker| == 1 && |g.sep| == 1 && |g.cleanup| == 1
    && g.marker[0] != g.sep[0] && g.marker[0] != g.cleanup[0] && g.sep[0] != g.cleanup[0]
    && g.endTag[0] != g.marker[0] && g.endTag[0] != g.cleanup[0]
  }

  /** `t` occurs in `s` at position `i`. */
  predicate LitAt(s: string, i: nat, t: string)
  {
    i + |t| <= |s| && LitFrom(s, i, t, 0)
  }

  /** The characters of `t` from index `x` on agree with `s` from `i + x` on. */
  predicate LitFrom(s: string, i: nat, t: string, x: nat)
    requires i + |t| <= |s|
    decreases |t| - x
  {
    x >= |t| || (s[i + x] == t[x] && LitFrom(s, i, t, x + 1))
  }

  lemma {:induction false} LitFromChars(s: string, i: nat, t: string, x: nat)
    requires i + |t| <= |s|
    decreases |t| - x
    ensures LitFrom(s, i, t, x) <==> forall y :: x <= y < |t| ==> s[i + y] == t[y]
  {
    if x < |t| {
      LitFromChars(s, i, t, x + 1);
    }
  }

  /** `LitAt` character by character. */
  lemma LitAtChars(s: string, i: nat, t: string)
    ensures LitAt(s, i, t) <==> i + |t| <= |s| && forall y :: 0 <= y < |t| ==> s[i + y] == t[y]
  {
    if i + |t| <= |s| {
      LitFromChars(s, i, t, 0);
    }
  }

  /** `String.contains`, scanning for an occurrence from the left; the empty
      string is contained in every string. */
  predicate Contains(s: string, t: string)
  {
    ContainsFrom(s, t, 0)
  }

  /** `t` occurs in `s` at some position from `k` on. */
  predicate ContainsFrom(s: string, t: string, k: nat)
    decreases |s| + 1 - k
  {
    k <= |s| && (LitAt(s, k, t) || ContainsFrom(s, t, k + 1))
  }

  lemma {:induction false} ContainsFromIff(s: string, t: string, k: nat)
    decreases |s| + 1 - k
    ensures ContainsFrom(s, t, k) <==> exists j :: k <= j <= |s| && LitAt(s, j, t)
  {
    if k <= |s| {
      ContainsFromIff(s, t, k + 1);
      if exists j :: k <= j <= |s| && LitAt(s, j, t) {
        var j :| k <= j <= |s| && LitAt(s, j, t);
        assert j == k || (k + 1 <= j <= |s| && LitAt(s, j, t));
      }
    }
  }

  /** `Contains` as the existence of an occurrence. */
  lemma ContainsIff(s: string, t: string)
    ensures Contains(s, t) <==> exists j :: 0 <= j <= |s| && LitAt(s, j, t)
  {
    ContainsFromIff(s, t, 0);
  }

  /** `s.trim().isEmpty()`: `trim` strips every character up to U+0020. */
  predicate IsBlank(s: string)
  {
    forall k :: 0 <= k < |s| ==> s[k] <= ' '
  }

  /** A string none of whose characters from index `d` on is `t[d]` does not
      contain `t`; in particular the empty string contains no non-empty one. */
  lemma MissingCharNotContained(s: string, t: string, d: nat)
    requires d < |t|
    requires forall k :: d <= k < |s| ==> s[k] != t[d]
    ensures !Contains(s, t)
  {
    ContainsIff(s, t);
    forall j | 0 <= j <= |s|
      ensures !LitAt(s, j, t)
    {
      LitAtChars(s, j, t);
      if j + |t| <= |s| {
        assert s[j + d] != t[d];
      }
    }
  }

  /** A blank string contains no string with a visible character. */
  lemma BlankContainsNoVisible(s: string, t: string)
    requires IsBlank(s) && !IsBlank(t)
    ensures !Contains(s, t)
  {
    var d :| 0 <= d < |t| && t[d] > ' ';
    MissingCharNotContained(s, t, d);
  }

  /** The characters that `.` does not match under java.util.regex's default flags. */
  predicate IsLineTerminator(c: char)
  {
    c == '\n' || c == '\r' || c == '\U{0085}' || c == '\U{2028}' || c == '\U{2029}'
  }

  /** No proper non-empty prefix of `t` is also a suffix of `t` ("/*" and "*/" qualify). */
  predicate BorderFree(t: string)
  {
    forall d :: 0 < d < |t| ==> t[d..] != t[..|t| - d]
  }

  /** The example configuration, start/end marker `?`, key separator `|` and
      cleanup marker `°` between `/*` and `*/`, meets every assumption the
      decoding and round-trip lemmas make. */
  lemma ExampleGrammarWellFormed()
    ensures var g := Grammar("/*", "*/", "?", "|", "°");
      WellFormed(g) && BorderFree(g.startTag) && !IsBlank(g.startTag)
  {
  }

  /** `t` occurs at the end of `a + t`. */
  lemma LitAtEnd(a: string, t: string)
    ensures LitAt(a + t, |a|, t)
  {
    LitAtChars(a + t, |a|, t);
    forall y | 0 <= y < |t|
      ensures (a + t)[|a| + y] == t[y]
    {
    }
  }

  /** An occurrence of `a + b` is an occurrence of `a` followed by one of `b`. */
  lemma LitAtSplit(s: string, i: nat, a: string, b: string)
    ensures LitAt(s, i, a + b) <==> LitAt(s, i, a) && LitAt(s, i + |a|, b)
  {
    LitAtChars(s, i, a + b);
    LitAtChars(s, i, a);
    LitAtChars(s, i + |a|, b);
    if LitAt(s, i, a) && LitAt(s, i + |a|, b) {
      forall y | 0 <= y < |a + b|
        ensures s[i + y] == (a + b)[y]
      {
        if y >= |a| {
          assert s[i + |a| + (y - |a|)] == b[y - |a|];
        }
      }
    }
    if LitAt(s, i, a + b) {
      forall y | 0 <= y < |a|
        ensures s[i + y] == a[y]
      {
        assert (a + b)[y] == a[y];
      }
      forall y | 0 <= y < |b|
        ensures s[i + |a| + y] == b[y]
      {
        assert s[i + (|a| + y)] == (a + b)[|a| + y];
      }
    }
  }

  /** An occurrence, read back as a slice. */
  lemma LitAtSlice(s: string, i: nat, t: string)
    requires LitAt(s, i, t)
    ensures s[i..i + |t|] == t
  {
    LitAtChars(s, i, t);
    assert forall y :: 0 <= y < |t| ==> s[i..i + |t|][y] == t[y];
  }

  /** An occurrence of `t` in `pre + t + rest` that starts inside `pre` is either
      an occurrence in `pre` itself or straddles into the copy of `t`, which gives
      `t` a border; so a border-free `t` absent from `pre` first occurs after `pre`. */
  lemma OccurrenceInsidePrefix(pre: string, t: string, rest: string, j: nat)
    requires j < |pre|
    ensures LitAt(pre + t + rest, j, t) ==> Contains(pre, t) || !BorderFree(t)
  {
    var s := pre + t + rest;
    LitAtChars(s, j, t);
    LitAtChars(pre, j, t);
    if LitAt(s, j, t) {
      if j + |t| <= |pre| {
        assert s[j..j + |t|] == pre[j..j + |t|];
        assert LitAt(pre, j, t);
        ContainsIff(pre, t);
      } else {
        var d := |pre| - j;
        assert t[d..] == t[..|t| - d] by {
          forall k | 0 <= k < |t| - d
            ensures t[d..][k] == t[..|t| - d][k]
          {
            assert s[j + d + k] == t[d + k];
            assert s[|pre| + k] == t[k];
          }
        }
      }
    }
  }
}
