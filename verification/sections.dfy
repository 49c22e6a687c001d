/**
 * The delimited-section editor of the affiliate-links updater: locating,
 * extracting, removing and inserting the block of a video description that
 * sits between two copies of the delimiter.
 *
 * The scripts find the block with the regular expression `D(.*?)D` (flag
 * DOTALL), `D` being the escaped delimiter.  Here that search is an explicit
 * scan, and its contract is the regular expression's own semantics: the
 * leftmost match, and among matches starting there the shortest one.
 */
module Sections {
  import opened Wrappers
  import opened Text

  /** START_DELIMITER and END_DELIMITER are the same literal: fourteen tildes. */
  const Marker: string := "~~~~~~~~~~~~~~"

  /** A copy of the delimiter starts at index `j` of `s`. */
  predicate MarkerAt(s: string, j: int)
  {
    0 <= j && j + |Marker| <= |s| && s[j..j + |Marker|] == Marker
  }

  ghost predicate NoMarker(s: string)
  {
    forall j :: !MarkerAt(s, j)
  }

  predicate StartsWithTilde(s: string)
  {
    |s| > 0 && s[0] == '~'
  }

  predicate EndsWithTilde(s: string)
  {
    |s| > 0 && s[|s| - 1] == '~'
  }

  /** The pattern `D(.*?)D` matches `s[p..q + |D|]`: a delimiter at `p`, another at `q`, and `q` past the first. */
  ghost predicate IsMatch(s: string, p: int, q: int)
  {
    MarkerAt(s, p) && MarkerAt(s, q) && p + |Marker| <= q
  }

  ghost predicate NoMatch(s: string)
  {
    forall p, q :: !IsMatch(s, p, q)
  }

  /** The match `re.search` reports: leftmost start, then shortest (non-greedy) extent. */
  ghost predicate IsSearchMatch(s: string, i: int, k: int)
  {
    && IsMatch(s, i, k)
    && forall p, q :: IsMatch(s, p, q) ==> i < p || (i == p && k <= q)
  }

  /** The same match described by positions: the first delimiter, and the first one after it that does not overlap it. */
  ghost predicate FirstMarkers(s: string, i: int, k: int)
  {
    && MarkerAt(s, i)
    && (forall j :: 0 <= j < i ==> !MarkerAt(s, j))
    && MarkerAt(s, k)
    && i + |Marker| <= k
    && (forall j :: i + |Marker| <= j < k ==> !MarkerAt(s, j))
  }

  /** The first delimiter at or after `from`. */
  function FindMarker(s: string, from: nat): (r: Option<nat>)
    ensures r.Some? ==> from <= r.value && MarkerAt(s, r.value)
    ensures r.Some? ==> forall j :: from <= j < r.value ==> !MarkerAt(s, j)
    ensures r.None? ==> forall j :: from <= j ==> !MarkerAt(s, j)
    decreases |s| - from
  {
    if from + |Marker| > |s| then None
    else if MarkerAt(s, from) then Some(from)
    else FindMarker(s, from + 1)
  }

  /** The span `re.search(D(.*?)D, s, re.DOTALL)` finds, as the start indices of its two delimiters. */
  function FindSection(s: string): (r: Option<(nat, nat)>)
    ensures r.Some? ==> IsSearchMatch(s, r.value.0, r.value.1)
    ensures r.None? ==> NoMatch(s)
  {
    match FindMarker(s, 0)
    case None => None
    case Some(i) =>
      match FindMarker(s, i + |Marker|)
      case None => None
      case Some(k) => Some((i, k))
  }

  /** The leftmost-shortest match is exactly the first delimiter paired with the first non-overlapping one after it. */
  lemma SearchMatchIsFirstMarkers(s: string, i: int, k: int)
    ensures IsSearchMatch(s, i, k) <==> FirstMarkers(s, i, k)
  {
    if IsSearchMatch(s, i, k) {
      forall j | 0 <= j < i
        ensures !MarkerAt(s, j)
      {
        assert MarkerAt(s, j) ==> IsMatch(s, j, k);
      }
      forall j | i + |Marker| <= j < k
        ensures !MarkerAt(s, j)
      {
        assert MarkerAt(s, j) ==> IsMatch(s, i, j);
      }
    }
  }

  /** There is at most one search match. */
  lemma SearchMatchUnique(s: string, i: int, k: int, i': int, k': int)
    requires IsSearchMatch(s, i, k) && IsSearchMatch(s, i', k')
    ensures i == i' && k == k'
  {
  }

  lemma SearchMatchIsTheMatch(s: string, i: int, k: int)
    requires IsSearchMatch(s, i, k)
    ensures forall i', k' :: IsSearchMatch(s, i', k') <==> i' == i && k' == k
  {
    forall i', k' | IsSearchMatch(s, i', k')
      ensures i' == i && k' == k
    {
      SearchMatchUnique(s, i, k, i', k');
    }
  }

  // ---------------------------------------------------------------------
  // The four editing operations
  // ---------------------------------------------------------------------

  /** `extract_affiliate_section`: the stripped text between the delimiters of the search match, if any. */
  function ExtractSection(description: string): (r: Option<string>)
    ensures r.None? <==> NoMatch(description)
    ensures r.Some? ==> Trimmed(r.value)
    ensures forall i, k :: IsSearchMatch(description, i, k) ==>
              r == Some(Strip(description[i + |Marker|..k]))
  {
    var found := FindSection(description);
    if found.None? then None
    else
      var i, k := found.value.0, found.value.1;
      SearchMatchIsTheMatch(description, i, k);
      Some(Strip(description[i + |Marker|..k]))
  }

  /** The three parts `split_description_around_affiliate_section` returns. */
  datatype Parts = Parts(before: string, section: Option<string>, after: string)

  /** `split_description_around_affiliate_section`. */
  function SplitAroundSection(description: string): (r: Parts)
    ensures r.section.None? <==> NoMatch(description)
    ensures r.section.None? ==> r.before == RStrip(description) && r.after == ""
    ensures r.before == [] || !IsSpace(r.before[|r.before| - 1])
    ensures r.after == [] || !IsSpace(r.after[0])
  {
    var found := FindSection(description);
    if found.None? then Parts(RStrip(description), None, "")
    else CutAt(description, found.value.0, found.value.1)
  }

  /** The three parts around delimiters at `i` and `k`: the text before, stripped on the right; the inside, stripped; the text after, stripped on the left. */
  function CutAt(description: string, i: nat, k: nat): (r: Parts)
    requires i + |Marker| <= k && k + |Marker| <= |description|
    ensures r.section.Some?
    ensures r.before == [] || !IsSpace(r.before[|r.before| - 1])
    ensures r.after == [] || !IsSpace(r.after[0])
  {
    Parts(RStrip(description[..i]), Some(Strip(description[i + |Marker|..k])),
          LStrip(description[k + |Marker|..]))
  }

  /**
   * Around the search match the description reads
   * `before' + D + inner + D + after'`; the split keeps `rstrip(before')`,
   * `strip(inner)` and `lstrip(after')`.
   */
  lemma SplitAtSearchMatch(description: string, i: int, k: int)
    requires IsSearchMatch(description, i, k)
    ensures 0 <= i && i + |Marker| <= k && k + |Marker| <= |description|
    ensures SplitAroundSection(description) == CutAt(description, i, k)
  {
    var r := FindSection(description);
    SearchMatchUnique(description, i, k, r.value.0, r.value.1);
    SplitAtFound(description, i, k);
  }

  /** A match splits the description into the text before it, two delimiters with the inside between them, and the text after. */
  lemma MatchDecomposes(description: string, i: int, k: int)
    requires IsMatch(description, i, k)
    ensures description == description[..i] + Marker + description[i + |Marker|..k] + Marker
                           + description[k + |Marker|..]
  {
    assert description[i..i + |Marker|] == Marker;
    assert description[k..k + |Marker|] == Marker;
    assert description == description[..i] + description[i..i + |Marker|] + description[i + |Marker|..k]
                          + description[k..k + |Marker|] + description[k + |Marker|..];
  }

  /** Once the search has found the delimiters at `i` and `k`, the split cuts there. */
  lemma SplitAtFound(description: string, i: nat, k: nat)
    requires FindSection(description) == Some((i, k))
    ensures i + |Marker| <= k && k + |Marker| <= |description|
    ensures SplitAroundSection(description) == CutAt(description, i, k)
  {
    assert IsMatch(description, i, k);
  }

  /** Once the search has found the delimiters at `i` and `k`, `re.sub` keeps what precedes `i` and goes on after `k`. */
  lemma RemoveAtFound(s: string, i: nat, k: nat)
    requires FindSection(s) == Some((i, k))
    ensures i + |Marker| <= k && k + |Marker| <= |s|
    ensures RemoveAllSections(s) == s[..i] + RemoveAllSections(s[k + |Marker|..])
  {
    assert IsMatch(s, i, k);
    assert RemoveAllSections(s) == RemoveFrom(s, i, k);
  }

  /** The middle part of the split is what `extract_affiliate_section` returns. */
  lemma SplitAgreesWithExtract(description: string)
    ensures SplitAroundSection(description).section == ExtractSection(description)
  {
    var r := FindSection(description);
    if r.Some? {
      SearchMatchIsTheMatch(description, r.value.0, r.value.1);
    }
  }

  /** `re.sub(D.*?D, '', s, flags=re.DOTALL)`: every non-overlapping match, left to right, is deleted. */
  function RemoveAllSections(s: string): string
    decreases |s|, 1
  {
    var found := FindSection(s);
    if found.None? then s
    else RemoveFrom(s, found.value.0, found.value.1)
  }

  /** The substitution once a match is found at `i` and `k`: the text before it, then the substitution resumed after it. */
  function RemoveFrom(s: string, i: nat, k: nat): string
    requires i + |Marker| <= k && k + |Marker| <= |s|
    decreases |s|, 0
  {
    s[..i] + RemoveAllSections(s[k + |Marker|..])
  }

  /** Text without a section is returned unchanged. */
  lemma RemoveWithoutMatch(s: string)
    requires NoMatch(s)
    ensures RemoveAllSections(s) == s
  {
  }

  /** After the substitution no section is left: the scan resumes after each deleted one and the kept text never joins into a new delimiter. */
  lemma {:induction false} RemovedHasNoMatch(s: string)
    ensures NoMatch(RemoveAllSections(s))
    decreases |s|
  {
    var found := FindSection(s);
    if found.Some? {
      var i, k := found.value.0, found.value.1;
      var rest := s[k + |Marker|..];
      RemoveAtFound(s, i, k);
      RemovedHasNoMatch(rest);
      SearchMatchIsFirstMarkers(s, i, k);
      NoMarkerBeforeFirst(s, i);
      FirstMarkerNotAfterTilde(s, i);
      NoMatchConcat(s[..i], RemoveAllSections(rest));
    }
  }

  /** The substitution only deletes: the result is never longer. */
  lemma {:induction false} RemoveShortens(s: string)
    ensures |RemoveAllSections(s)| <= |s|
    decreases |s|
  {
    var found := FindSection(s);
    if found.Some? {
      var i, k := found.value.0, found.value.1;
      var rest := s[k + |Marker|..];
      RemoveAtFound(s, i, k);
      RemoveShortens(rest);
    }
  }

  /** The text in front of the first section is kept as it is, and the section itself, delimiters included, is gone. */
  lemma RemoveKeepsTextBefore(s: string, i: int, k: int)
    requires IsSearchMatch(s, i, k)
    ensures 0 <= i <= |RemoveAllSections(s)| <= |s| - 2 * |Marker|
    ensures RemoveAllSections(s)[..i] == s[..i]
  {
    var r := FindSection(s);
    SearchMatchUnique(s, i, k, r.value.0, r.value.1);
    RemoveAtFound(s, i, k);
    var rest := RemoveAllSections(s[k + |Marker|..]);
    RemoveShortens(s[k + |Marker|..]);
    assert |s[..i] + rest| <= |s| - 2 * |Marker|;
    assert (s[..i] + rest)[..i] == s[..i];
  }

  /** `remove_affiliate_section`: delete every section, strip, then squeeze runs of newlines. */
  function RemoveSection(description: string): (r: string)
    ensures Trimmed(r)
    ensures NoTripleNewline(r)
  {
    CollapseNewlines(Strip(RemoveAllSections(description)))
  }

  /** On a description without a section, removing it only strips and squeezes newlines. */
  lemma RemoveSectionWithoutMatch(description: string)
    requires NoMatch(description)
    ensures RemoveSection(description) == CollapseNewlines(Strip(description))
  {
    RemoveWithoutMatch(description);
  }

  /** `add_affiliate_section`: a fresh section replaces the old one in place, or is appended when there is none. */
  function AddSection(description: string, content: string): (r: string)
    ensures var parts := SplitAroundSection(description);
            && |parts.before| <= |r| && r[..|parts.before|] == parts.before
            && |parts.after| <= |r| && r[|r| - |parts.after|..] == parts.after
  {
    var parts := SplitAroundSection(description);
    Assemble(parts.before, content, parts.after)
  }

  /** The new description built from the kept text and the fresh section. */
  function Assemble(before: string, content: string, after: string): (r: string)
    ensures |before| <= |r| && r[..|before|] == before
    ensures |after| <= |r| && r[|r| - |after|..] == after
  {
    var block := "\n\n" + Marker + "\n" + content + "\n" + Marker;
    if after != [] then
      assert (before + block + "\n\n") + after == before + block + ("\n\n" + after);
      before + block + ("\n\n" + after)
    else
      before + block
  }

  // ---------------------------------------------------------------------
  // Delimiters inside concatenations
  // ---------------------------------------------------------------------

  lemma MarkerIsTildes()
    ensures |Marker| == 14
    ensures forall x :: 0 <= x < |Marker| ==> Marker[x] == '~'
  {
  }

  lemma MarkerAtIffTildes(s: string, j: int)
    ensures MarkerAt(s, j) <==>
              (0 <= j && j + |Marker| <= |s| && forall t :: j <= t < j + |Marker| ==> s[t] == '~')
  {
    MarkerIsTildes();
    if 0 <= j && j + |Marker| <= |s| {
      var w := s[j..j + |Marker|];
      assert forall t :: j <= t < j + |Marker| ==> s[t] == w[t - j];
      if forall t :: j <= t < j + |Marker| ==> s[t] == '~' {
        assert forall x :: 0 <= x < |Marker| ==> w[x] == s[j + x];
        assert w == Marker;
      }
    }
  }

  lemma MarkerShift(a: string, b: string, j: int)
    requires 0 <= j
    ensures MarkerAt(a + b, |a| + j) <==> MarkerAt(b, j)
  {
    if j + |Marker| <= |b| {
      assert (a + b)[|a| + j..|a| + j + |Marker|] == b[j..j + |Marker|];
    }
  }

  lemma MarkerInPrefix(a: string, b: string, j: int)
    requires 0 <= j && j + |Marker| <= |a|
    ensures MarkerAt(a + b, j) <==> MarkerAt(a, j)
  {
    assert (a + b)[j..j + |Marker|] == a[j..j + |Marker|];
  }

  /** A delimiter that begins in `a` and ends in `b` needs a tilde on both sides of the seam. */
  lemma MarkerStraddles(a: string, b: string, j: int)
    requires 0 <= j < |a| < j + |Marker|
    requires MarkerAt(a + b, j)
    ensures EndsWithTilde(a) && StartsWithTilde(b)
  {
    MarkerAtIffTildes(a + b, j);
    assert (a + b)[|a| - 1] == a[|a| - 1];
    assert (a + b)[|a|] == b[0];
  }

  lemma NoMarkerBefore(a: string, b: string, j: int)
    requires NoMarker(a) && !EndsWithTilde(a)
    requires j < |a|
    ensures !MarkerAt(a + b, j)
  {
    if 0 <= j && j + |Marker| <= |a| {
      MarkerInPrefix(a, b, j);
    } else if 0 <= j && MarkerAt(a + b, j) {
      MarkerStraddles(a, b, j);
    }
  }

  lemma NoMarkerConcat(a: string, b: string)
    requires NoMarker(a) && NoMarker(b)
    requires !EndsWithTilde(a) || !StartsWithTilde(b)
    ensures NoMarker(a + b)
  {
    forall j
      ensures !MarkerAt(a + b, j)
    {
      if 0 <= j < |a| {
        if j + |Marker| <= |a| {
          MarkerInPrefix(a, b, j);
        } else if MarkerAt(a + b, j) {
          MarkerStraddles(a, b, j);
        }
      } else if j >= |a| {
        MarkerShift(a, b, j - |a|);
      }
    }
  }

  lemma NoMarkerPrefix(s: string, n: nat)
    requires NoMarker(s) && n <= |s|
    ensures NoMarker(s[..n])
  {
    assert s == s[..n] + s[n..];
    forall j | 0 <= j && j + |Marker| <= n
      ensures !MarkerAt(s[..n], j)
    {
      MarkerInPrefix(s[..n], s[n..], j);
    }
  }

  /** The text in front of the first delimiter holds no delimiter. */
  lemma NoMarkerBeforeFirst(s: string, i: nat)
    requires i <= |s|
    requires forall j :: 0 <= j < i ==> !MarkerAt(s, j)
    ensures NoMarker(s[..i])
  {
    assert s == s[..i] + s[i..];
    forall j | 0 <= j && j + |Marker| <= i
      ensures !MarkerAt(s[..i], j)
    {
      MarkerInPrefix(s[..i], s[i..], j);
    }
  }

  /** The character in front of the first delimiter is not a tilde (else the delimiter would start one earlier). */
  lemma FirstMarkerNotAfterTilde(s: string, i: nat)
    requires MarkerAt(s, i)
    requires forall j :: 0 <= j < i ==> !MarkerAt(s, j)
    ensures !EndsWithTilde(s[..i])
  {
    if i > 0 {
      MarkerAtIffTildes(s, i);
      MarkerAtIffTildes(s, i - 1);
    }
  }

  lemma NoMatchConcat(a: string, b: string)
    requires NoMarker(a) && !EndsWithTilde(a)
    requires NoMatch(b)
    ensures NoMatch(a + b)
  {
    forall p, q
      ensures !IsMatch(a + b, p, q)
    {
      if p < |a| {
        NoMarkerBefore(a, b, p);
      } else if q >= |a| {
        MarkerShift(a, b, p - |a|);
        MarkerShift(a, b, q - |a|);
        assert IsMatch(a + b, p, q) ==> IsMatch(b, p - |a|, q - |a|);
      }
    }
  }

  /** `p`, then a section whose inside is `m`, then `q`. */
  function Framed(p: string, m: string, q: string): string
  {
    p + Marker + m + Marker + q
  }

  /** A section between a delimiter-free prefix and a delimiter-free inside is the one the search finds. */
  lemma FramedSection(p: string, m: string, q: string)
    requires NoMarker(p) && !EndsWithTilde(p)
    requires NoMarker(m) && !EndsWithTilde(m)
    ensures FindSection(Framed(p, m, q)) == Some((|p|, |p| + |Marker| + |m|))
  {
    var s := Framed(p, m, q);
    var i := |p|;
    var k := |p| + |Marker| + |m|;
    FramedFirstMarkers(p, m, q);
    SearchMatchIsFirstMarkers(s, i, k);
    assert IsMatch(s, i, k);
    var r := FindSection(s);
    SearchMatchUnique(s, i, k, r.value.0, r.value.1);
  }

  lemma FramedFirstMarkers(p: string, m: string, q: string)
    requires NoMarker(p) && !EndsWithTilde(p)
    requires NoMarker(m) && !EndsWithTilde(m)
    ensures FirstMarkers(p + Marker + m + Marker + q, |p|, |p| + |Marker| + |m|)
  {
    FramedOpening(p, m + Marker + q);
    assert p + Marker + m + Marker + q == p + Marker + (m + Marker + q);
    FramedClosing(p + Marker, m, q);
    assert p + Marker + m + Marker + q == (p + Marker) + m + Marker + q;
  }

  /** In `a + D + b`, with `a` free of delimiters and not ending in a tilde, the first delimiter is at `|a|`. */
  lemma FramedOpening(a: string, b: string)
    requires NoMarker(a) && !EndsWithTilde(a)
    ensures MarkerAt(a + Marker + b, |a|)
    ensures forall j :: 0 <= j < |a| ==> !MarkerAt(a + Marker + b, j)
  {
    var tail := Marker + b;
    assert a + Marker + b == a + tail;
    MarkerShift(a, tail, 0);
    forall j | 0 <= j < |a|
      ensures !MarkerAt(a + tail, j)
    {
      NoMarkerBefore(a, tail, j);
    }
  }

  /** In `a + m + D + q`, with `m` free of delimiters and not ending in a tilde, the first delimiter from `|a|` on is at `|a| + |m|`. */
  lemma FramedClosing(a: string, m: string, q: string)
    requires NoMarker(m) && !EndsWithTilde(m)
    ensures MarkerAt(a + m + Marker + q, |a| + |m|)
    ensures forall j :: |a| <= j < |a| + |m| ==> !MarkerAt(a + m + Marker + q, j)
  {
    var tail := m + Marker + q;
    assert a + m + Marker + q == a + tail;
    FramedOpening(m, q);
    MarkerShift(a, tail, |m|);
    ShiftedNoMarker(a, tail, |m|);
  }

  lemma ShiftedNoMarker(a: string, b: string, n: int)
    requires forall j :: 0 <= j < n ==> !MarkerAt(b, j)
    ensures forall j :: |a| <= j < |a| + n ==> !MarkerAt(a + b, j)
  {
    forall j | |a| <= j < |a| + n
      ensures !MarkerAt(a + b, j)
    {
      MarkerShift(a, b, j - |a|);
    }
  }
}
