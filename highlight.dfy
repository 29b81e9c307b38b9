/**
 * The placeholder highlighter of the prompt detail view (`HighlightedContent`):
 * `content.split(/(\[.*?\])/g)` followed by one span per part, highlighted
 * when the part starts with `[` and ends with `]`.
 *
 * `split` with a capturing regular expression walks the string from left to
 * right; at each position `q` it tries the pattern, and on a match pushes the
 * text since the previous match and then the captured match; finally it
 * pushes the remaining text. The pattern `\[.*?\]` at `q` needs `[` at `q`
 * and then reaches the first `]` after it, provided no line terminator
 * comes first (`.` does not match line terminators).
 */
module Highlight {
  import opened Types

  /** The characters JavaScript's `.` refuses. */
  predicate IsLineTerminator(c: char)
  {
    c == '\n' || c == '\r' || c == '\U{2028}' || c == '\U{2029}'
  }

  /** A `[...]` run: brackets at both ends, no `]` and no line terminator between them. */
  ghost predicate IsPlaceholder(t: string)
  {
    && |t| >= 2 && t[0] == '[' && t[|t| - 1] == ']'
    && forall k :: 0 < k < |t| - 1 ==> t[k] != ']' && !IsLineTerminator(t[k])
  }

  /** Where `.*?\]` started at `i` succeeds: the index of its closing `]`. */
  function CloseAt(s: string, i: nat): (r: Option<nat>)
    requires i <= |s|
    ensures r.Some? ==> i <= r.value < |s| && s[r.value] == ']'
    ensures r.Some? ==> forall k :: i <= k < r.value ==> s[k] != ']' && !IsLineTerminator(s[k])
    ensures r.None? ==> forall j :: i <= j < |s| && s[j] == ']' ==> exists k :: i <= k < j && IsLineTerminator(s[k])
    decreases |s| - i
  {
    if i == |s| then None
    else if s[i] == ']' then Some(i)
    else if IsLineTerminator(s[i]) then None
    else CloseAt(s, i + 1)
  }

  /** The end (exclusive) of a match of `\[.*?\]` at `q`, if there is one. */
  function MatchEnd(s: string, q: nat): (r: Option<nat>)
    requires q <= |s|
    ensures r.Some? ==> q < r.value <= |s| && IsPlaceholder(s[q..r.value])
  {
    if q < |s| && s[q] == '[' then
      match CloseAt(s, q + 1)
      case None => None
      case Some(j) =>
        var t := s[q..j + 1];
        assert forall k :: 0 <= k < |t| ==> t[k] == s[q + k];
        Some(j + 1)
    else None
  }

  /**
   * `split` after the last match ended at `p`, with the pattern being tried
   * at `q`.
   */
  function SplitFrom(s: string, p: nat, q: nat): (parts: seq<string>)
    requires p <= q <= |s|
    ensures |parts| % 2 == 1
    decreases |s| - q
  {
    if q == |s| then [s[p..]]
    else
      match MatchEnd(s, q)
      case None => SplitFrom(s, p, q + 1)
      case Some(e) => [s[p..q], s[q..e]] + SplitFrom(s, e, e)
  }

  /** `content.split(/(\[.*?\])/g)`. */
  function Split(content: string): (parts: seq<string>)
    ensures |parts| % 2 == 1
  {
    SplitFrom(content, 0, 0)
  }

  function Concat(parts: seq<string>): string
  {
    if parts == [] then "" else parts[0] + Concat(parts[1..])
  }

  lemma {:induction false} ConcatPrefix(a: string, b: string, rest: seq<string>)
    ensures Concat([a, b] + rest) == a + b + Concat(rest)
  {
    var l := [a, b] + rest;
    assert l[0] == a && l[1..] == [b] + rest;
    assert ([b] + rest)[0] == b && ([b] + rest)[1..] == rest;
  }

  /** Concatenating the parts in order gives back the text from `p` on. */
  lemma {:induction false} SplitFromConcat(s: string, p: nat, q: nat)
    requires p <= q <= |s|
    ensures Concat(SplitFrom(s, p, q)) == s[p..]
    decreases |s| - q
  {
    if q == |s| {
      assert Concat([s[p..]]) == s[p..] + Concat([]);
    } else {
      match MatchEnd(s, q)
      case None =>
        SplitFromConcat(s, p, q + 1);
      case Some(e) =>
        SplitFromConcat(s, e, e);
        ConcatPrefix(s[p..q], s[q..e], SplitFrom(s, e, e));
        assert s[p..q] + s[q..e] + s[e..] == s[p..];
    }
  }

  /** The parts put back together are the content, character for character. */
  lemma SplitRoundTrip(content: string)
    ensures Concat(Split(content)) == content
  {
    SplitFromConcat(content, 0, 0);
  }

  /** No position of `t` starts a match. */
  ghost predicate NoMatch(t: string)
  {
    forall i :: 0 <= i < |t| ==> MatchEnd(t, i).None?
  }

  /**
   * The parts alternate: text without a match, captured placeholder, text,
   * ..., text; so there is always an odd number of parts.
   */
  ghost predicate Alternates(parts: seq<string>)
  {
    && |parts| % 2 == 1
    && forall i :: 0 <= i < |parts| ==> if i % 2 == 1 then IsPlaceholder(parts[i]) else NoMatch(parts[i])
  }

  /** `.*?\]` from `i` reaches the first `]` when no line terminator comes before it. */
  lemma {:induction false} CloseReaches(s: string, i: nat, j: nat)
    requires i <= j < |s| && s[j] == ']'
    requires forall k :: i <= k < j ==> s[k] != ']' && !IsLineTerminator(s[k])
    ensures CloseAt(s, i) == Some(j)
    decreases j - i
  {
    if i < j {
      CloseReaches(s, i + 1, j);
    }
  }

  /** A match inside a slice is also a match of the whole string. */
  lemma MatchInSlice(s: string, p: nat, q: nat, i: nat)
    requires p <= q <= |s| && i < q - p
    ensures MatchEnd(s[p..q], i).Some? ==> MatchEnd(s, p + i).Some?
  {
    var t := s[p..q];
    if MatchEnd(t, i).Some? {
      var j := CloseAt(t, i + 1).value;
      assert s[p + i] == t[i] == '[';
      assert s[p + j] == t[j] == ']';
      forall k | p + i + 1 <= k < p + j ensures s[k] != ']' && !IsLineTerminator(s[k]) {
        assert s[k] == t[k - p];
      }
      CloseReaches(s, p + i + 1, p + j);
    }
  }

  /** The text before a match at `q`, or before the end, contains no match itself. */
  lemma TextPartNoMatch(s: string, p: nat, q: nat)
    requires p <= q <= |s|
    requires forall k :: p <= k < q ==> MatchEnd(s, k).None?
    ensures NoMatch(s[p..q])
  {
    forall i | 0 <= i < q - p ensures MatchEnd(s[p..q], i).None? {
      MatchInSlice(s, p, q, i);
    }
  }

  /** Text, placeholder, then alternating parts, still alternates. */
  lemma AlternatesCons(a: string, b: string, rest: seq<string>)
    requires NoMatch(a) && IsPlaceholder(b) && Alternates(rest)
    ensures Alternates([a, b] + rest)
  {
    var r := [a, b] + rest;
    forall i | 0 <= i < |r|
      ensures if i % 2 == 1 then IsPlaceholder(r[i]) else NoMatch(r[i])
    {
      if i >= 2 {
        assert r[i] == rest[i - 2];
      }
    }
  }

  lemma {:induction false} SplitFromAlternates(s: string, p: nat, q: nat)
    requires p <= q <= |s|
    requires forall k :: p <= k < q ==> MatchEnd(s, k).None?
    ensures Alternates(SplitFrom(s, p, q))
    decreases |s| - q
  {
    if q == |s| {
      TextPartNoMatch(s, p, q);
      assert s[p..q] == s[p..];
      assert SplitFrom(s, p, q) == [s[p..q]];
    } else {
      match MatchEnd(s, q)
      case None =>
        SplitFromAlternates(s, p, q + 1);
      case Some(e) =>
        TextPartNoMatch(s, p, q);
        SplitFromAlternates(s, e, e);
        AlternatesCons(s[p..q], s[q..e], SplitFrom(s, e, e));
    }
  }

  /** Text parts alternate with the captured placeholders, starting and ending with text. */
  lemma SplitAlternates(content: string)
    ensures Alternates(Split(content))
  {
    SplitFromAlternates(content, 0, 0);
  }

  /**
   * `parts` cut `s[p..]` at its successive leftmost matches: each text part
   * is the content from `p` up to the first position where the pattern
   * matches in the content (or up to the end), and the part after it is
   * exactly that match; the cutting then resumes where the match ends.
   */
  ghost predicate LeftmostSplit(s: string, p: nat, parts: seq<string>)
    requires p <= |s|
    decreases |parts|
  {
    && |parts| % 2 == 1
    && var m := p + |parts[0]|;
       && m <= |s| && parts[0] == s[p..m]
       && (forall k :: p <= k < m ==> MatchEnd(s, k).None?)
       && if |parts| == 1 then m == |s|
          else
            var e := m + |parts[1]|;
            && MatchEnd(s, m) == Some(e) && parts[1] == s[m..e]
            && LeftmostSplit(s, e, parts[2..])
  }

  /** Trying the pattern at positions where it does not match changes nothing. */
  lemma {:induction false} SplitFromSkip(s: string, p: nat, q: nat, q2: nat)
    requires p <= q <= q2 <= |s|
    requires forall k :: q <= k < q2 ==> MatchEnd(s, k).None?
    ensures SplitFrom(s, p, q) == SplitFrom(s, p, q2)
    decreases q2 - q
  {
    if q < q2 {
      SplitFromSkip(s, p, q + 1, q2);
    }
  }

  /** The last text part runs to the end of the content. */
  lemma LeftmostLast(s: string, p: nat)
    requires p <= |s|
    requires forall k :: p <= k < |s| ==> MatchEnd(s, k).None?
    ensures LeftmostSplit(s, p, [s[p..]])
  {
    assert |[s[p..]]| == 1 && p + |s[p..]| == |s|;
  }

  /** A text part up to the match at `m`, that match, then the rest cut from its end. */
  lemma LeftmostCons(s: string, p: nat, m: nat, e: nat, rest: seq<string>)
    requires p <= m < e <= |s| && MatchEnd(s, m) == Some(e)
    requires forall k :: p <= k < m ==> MatchEnd(s, k).None?
    requires LeftmostSplit(s, e, rest)
    ensures LeftmostSplit(s, p, [s[p..m], s[m..e]] + rest)
  {
    var parts := [s[p..m], s[m..e]] + rest;
    assert parts[0] == s[p..m] && parts[1] == s[m..e] && parts[2..] == rest;
    assert p + |parts[0]| == m && m + |parts[1]| == e;
  }

  lemma {:induction false} SplitFromLeftmost(s: string, p: nat, q: nat)
    requires p <= q <= |s|
    requires forall k :: p <= k < q ==> MatchEnd(s, k).None?
    ensures LeftmostSplit(s, p, SplitFrom(s, p, q))
    decreases |s| - q
  {
    if q == |s| {
      LeftmostLast(s, p);
    } else {
      match MatchEnd(s, q)
      case None =>
        SplitFromLeftmost(s, p, q + 1);
      case Some(e) =>
        SplitFromLeftmost(s, e, e);
        LeftmostCons(s, p, q, e, SplitFrom(s, e, e));
    }
  }

  /** What a leftmost split with more than one part starts with. */
  lemma LeftmostParts(s: string, p: nat, parts: seq<string>)
    requires p <= |s| && LeftmostSplit(s, p, parts) && |parts| > 1
    ensures var m := p + |parts[0]|; var e := m + |parts[1]|;
      && m < e <= |s| && MatchEnd(s, m) == Some(e)
      && parts == [s[p..m], s[m..e]] + parts[2..]
      && LeftmostSplit(s, e, parts[2..])
  {
    assert parts == [parts[0], parts[1]] + parts[2..];
  }

  /** What the first text part of a leftmost split is. */
  lemma LeftmostText(s: string, p: nat, parts: seq<string>)
    requires p <= |s| && LeftmostSplit(s, p, parts)
    ensures var m := p + |parts[0]|;
      && m <= |s| && parts[0] == s[p..m]
      && (forall k :: p <= k < m ==> MatchEnd(s, k).None?)
      && (|parts| == 1 ==> m == |s| && parts == [s[p..]])
  {
    if |parts| == 1 {
      assert s[p..p + |parts[0]|] == s[p..];
      assert parts == [parts[0]];
    }
  }

  lemma SplitFromAtMatch(s: string, p: nat, m: nat, e: nat)
    requires p <= m < |s| && MatchEnd(s, m) == Some(e)
    ensures SplitFrom(s, p, m) == [s[p..m], s[m..e]] + SplitFrom(s, e, e)
  {
  }

  lemma {:induction false} LeftmostIsSplitFrom(s: string, p: nat, parts: seq<string>)
    requires p <= |s| && LeftmostSplit(s, p, parts)
    ensures parts == SplitFrom(s, p, p)
    decreases |parts|
  {
    LeftmostText(s, p, parts);
    var m := p + |parts[0]|;
    SplitFromSkip(s, p, p, m);
    if |parts| > 1 {
      LeftmostParts(s, p, parts);
      var e := m + |parts[1]|;
      var rest := parts[2..];
      LeftmostIsSplitFrom(s, e, rest);
      SplitFromAtMatch(s, p, m, e);
      assert parts == [s[p..m], s[m..e]] + rest;
      assert SplitFrom(s, p, m) == [s[p..m], s[m..e]] + rest;
    } else {
      assert m == |s|;
      assert SplitFrom(s, p, m) == [s[p..]];
    }
  }

  /**
   * The split is the one list that cuts the content at its successive
   * leftmost matches, each text part running up to the next match in the
   * content.
   */
  lemma SplitIsLeftmost(content: string, parts: seq<string>)
    ensures LeftmostSplit(content, 0, parts) <==> parts == Split(content)
  {
    SplitFromLeftmost(content, 0, 0);
    if LeftmostSplit(content, 0, parts) {
      LeftmostIsSplitFrom(content, 0, parts);
    }
  }

  /** Some slice of `s` is a `[...]` run on a single line. */
  ghost predicate HasPlaceholder(s: string)
  {
    exists i, j :: 0 <= i < j <= |s| && IsPlaceholder(s[i..j])
  }

  /** The pattern matches somewhere exactly when the content has a `[...]` run. */
  lemma MatchExistsIffPlaceholder(s: string)
    ensures (exists q :: 0 <= q < |s| && MatchEnd(s, q).Some?) <==> HasPlaceholder(s)
  {
    if exists q :: 0 <= q < |s| && MatchEnd(s, q).Some? {
      var q :| 0 <= q < |s| && MatchEnd(s, q).Some?;
      assert IsPlaceholder(s[q..MatchEnd(s, q).value]);
    }
    if HasPlaceholder(s) {
      var i, j :| 0 <= i < j <= |s| && IsPlaceholder(s[i..j]);
      var t := s[i..j];
      assert s[i] == t[0] == '[';
      assert s[j - 1] == t[|t| - 1] == ']';
      forall k | i + 1 <= k < j - 1 ensures s[k] != ']' && !IsLineTerminator(s[k]) {
        assert s[k] == t[k - i];
      }
      CloseReaches(s, i + 1, j - 1);
      assert MatchEnd(s, i).Some?;
    }
  }

  lemma {:induction false} SplitFromNoMatch(s: string, p: nat, q: nat)
    requires p <= q <= |s|
    requires forall k :: q <= k < |s| ==> MatchEnd(s, k).None?
    ensures SplitFrom(s, p, q) == [s[p..]]
    decreases |s| - q
  {
    if q < |s| {
      SplitFromNoMatch(s, p, q + 1);
    }
  }

  lemma {:induction false} SplitFromMatchSplits(s: string, p: nat, q: nat, m: nat)
    requires p <= q <= m < |s| && MatchEnd(s, m).Some?
    ensures |SplitFrom(s, p, q)| >= 3
    decreases |s| - q
  {
    if MatchEnd(s, q).None? {
      SplitFromMatchSplits(s, p, q + 1, m);
    }
  }

  /** Content without a `[...]` run on one line is a single part: itself; and only such content is. */
  lemma SinglePartIffNoPlaceholder(content: string)
    ensures Split(content) == [content] <==> !HasPlaceholder(content)
  {
    MatchExistsIffPlaceholder(content);
    if HasPlaceholder(content) {
      var m :| 0 <= m < |content| && MatchEnd(content, m).Some?;
      SplitFromMatchSplits(content, 0, 0, m);
    } else {
      SplitFromNoMatch(content, 0, 0);
    }
  }

  // ----- rendering -----

  /** `part.startsWith('[') && part.endsWith(']')`. */
  predicate IsHighlighted(part: string)
  {
    |part| > 0 && part[0] == '[' && part[|part| - 1] == ']'
  }

  datatype Span = Span(text: string, highlighted: bool)

  /** One span per part, in order. */
  function HighlightedContent(content: string): (spans: seq<Span>)
  {
    var parts := Split(content);
    seq(|parts|, i requires 0 <= i < |parts| => Span(parts[i], IsHighlighted(parts[i])))
  }

  function Texts(spans: seq<Span>): seq<string>
  {
    seq(|spans|, i requires 0 <= i < |spans| => spans[i].text)
  }

  /** The spans show the content unchanged, cut at the placeholders. */
  lemma RenderPreservesContent(content: string)
    ensures Texts(HighlightedContent(content)) == Split(content)
    ensures Concat(Texts(HighlightedContent(content))) == content
  {
    SplitRoundTrip(content);
  }

  /** Every captured placeholder is drawn highlighted. */
  lemma PlaceholdersHighlighted(content: string, i: nat)
    requires i < |HighlightedContent(content)| && i % 2 == 1
    ensures HighlightedContent(content)[i].highlighted
  {
    SplitAlternates(content);
  }

  /**
   * A text part is drawn highlighted only when its brackets are separated by
   * a line break (the pattern cannot cross it, but the `startsWith` /
   * `endsWith` test does not care).
   */
  lemma HighlightedTextSpansLines(content: string, i: nat)
    requires i < |HighlightedContent(content)| && i % 2 == 0
    requires HighlightedContent(content)[i].highlighted
    ensures exists k :: 0 < k < |Split(content)[i]| - 1 && IsLineTerminator(Split(content)[i][k])
  {
    SplitAlternates(content);
    var t := Split(content)[i];
    assert NoMatch(t);
    assert MatchEnd(t, 0).None?;
    assert t[|t| - 1] == ']';
  }

  // ----- examples -----

  /** A placeholder in a sentence is cut out and highlighted. */
  lemma PlaceholderExample()
    ensures Split("Hi [name]!") == ["Hi ", "[name]", "!"]
    ensures HighlightedContent("Hi [name]!")
      == [Span("Hi ", false), Span("[name]", true), Span("!", false)]
  {
    var s := "Hi [name]!";
    assert CloseAt(s, 4) == Some(8) by { CloseReaches(s, 4, 8); }
    assert MatchEnd(s, 3) == Some(9);
    assert s[0..3] == "Hi " && s[3..9] == "[name]" && s[9..] == "!";
    assert MatchEnd(s, 0) == MatchEnd(s, 1) == MatchEnd(s, 2) == None;
    assert SplitFrom(s, 0, 0) == SplitFrom(s, 0, 3);
    assert SplitFrom(s, 0, 3) == ["Hi ", "[name]"] + SplitFrom(s, 9, 9);
    assert SplitFrom(s, 9, 9) == SplitFrom(s, 9, 10) == ["!"];
  }

  /** Brackets on two lines are no match, yet the whole text is drawn highlighted. */
  lemma LineBreakExample()
    ensures Split("[a\nb]") == ["[a\nb]"]
    ensures HighlightedContent("[a\nb]") == [Span("[a\nb]", true)]
  {
    var s := "[a\nb]";
    assert CloseAt(s, 1) == None;
    assert forall q :: 0 <= q < |s| ==> MatchEnd(s, q).None?;
    SplitFromNoMatch(s, 0, 0);
  }
}
