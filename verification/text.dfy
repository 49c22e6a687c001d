/**
 * The pieces of Python's `str` API that the section editor relies on:
 * `lstrip()`, `rstrip()`, `strip()` with no argument, and the newline
 * clean-up `re.sub(r'\n{3,}', '\n\n', s)`.
 */
module Text {
  import opened Seqs

  /**
   * The characters for which Python's `str.isspace()` holds: the ASCII
   * controls TAB to CR and FS to US, the space, NEL, NBSP, the Ogham space
   * mark, EN QUAD to HAIR SPACE, the line and paragraph separators, the
   * narrow and medium mathematical spaces and the ideographic space.
   */
  const Whitespace: set<char> := {
    '\t', '\n', '\U{0B}', '\U{0C}', '\r',
    '\U{1C}', '\U{1D}', '\U{1E}', '\U{1F}', ' ',
    '\U{85}', '\U{A0}', '\U{1680}',
    '\U{2000}', '\U{2001}', '\U{2002}', '\U{2003}', '\U{2004}', '\U{2005}',
    '\U{2006}', '\U{2007}', '\U{2008}', '\U{2009}', '\U{200A}',
    '\U{2028}', '\U{2029}', '\U{202F}', '\U{205F}', '\U{3000}'
  }

  /** Python's `str.isspace()` for one character. */
  predicate IsSpace(c: char)
  {
    c in Whitespace
  }

  predicate AllSpace(s: string)
  {
    forall j :: 0 <= j < |s| ==> IsSpace(s[j])
  }

  /** Neither end of `s` is whitespace. */
  predicate Trimmed(s: string)
  {
    s == [] || (!IsSpace(s[0]) && !IsSpace(s[|s| - 1]))
  }

  /** `s.lstrip()`: the suffix left after dropping every leading whitespace character. */
  function LStrip(s: string): (r: string)
    ensures |r| <= |s| && r == s[|s| - |r|..]
    ensures r == [] || !IsSpace(r[0])
    decreases |s|
  {
    if |s| > 0 && IsSpace(s[0]) then LStrip(s[1..]) else s
  }

  /** `s.rstrip()`: the prefix left after dropping every trailing whitespace character. */
  function RStrip(s: string): (r: string)
    ensures |r| <= |s| && r == s[..|r|]
    ensures r == [] || !IsSpace(r[|r| - 1])
    decreases |s|
  {
    if |s| > 0 && IsSpace(s[|s| - 1]) then RStrip(s[..|s| - 1]) else s
  }

  /** What `lstrip` drops is whitespace. */
  lemma {:induction false} LStripDropsSpace(s: string)
    ensures AllSpace(s[..|s| - |LStrip(s)|])
    decreases |s|
  {
    if |s| > 0 && IsSpace(s[0]) {
      LStripDropsSpace(s[1..]);
      var n := |s| - |LStrip(s)|;
      forall j | 0 <= j < n
        ensures IsSpace(s[..n][j])
      {
        if j > 0 {
          assert s[..n][j] == s[1..][..n - 1][j - 1];
        }
      }
    }
  }

  /** What `rstrip` drops is whitespace. */
  lemma {:induction false} RStripDropsSpace(s: string)
    ensures AllSpace(s[|RStrip(s)|..])
    decreases |s|
  {
    if |s| > 0 && IsSpace(s[|s| - 1]) {
      var t := s[..|s| - 1];
      RStripDropsSpace(t);
      var n := |RStrip(s)|;
      forall x | 0 <= x < |s| - n
        ensures IsSpace(s[n..][x])
      {
        if x < |s| - 1 - n {
          assert s[n..][x] == t[n..][x];
        }
      }
    }
  }

  /** `s.strip()`. */
  function Strip(s: string): (r: string)
    ensures |r| <= |s|
    ensures Trimmed(r)
  {
    LStrip(RStrip(s))
  }

  /** `lstrip` removes exactly the whitespace in front of a text that starts with a non-space. */
  lemma {:induction false} LStripUnique(w: string, t: string)
    requires AllSpace(w)
    requires t == [] || !IsSpace(t[0])
    ensures LStrip(w + t) == t
    decreases |w|
  {
    if w == [] {
      assert w + t == t;
    } else {
      assert (w + t)[0] == w[0];
      assert (w + t)[1..] == w[1..] + t;
      LStripUnique(w[1..], t);
    }
  }

  /** `rstrip` removes exactly the whitespace after a text that ends with a non-space. */
  lemma {:induction false} RStripUnique(t: string, w: string)
    requires AllSpace(w)
    requires t == [] || !IsSpace(t[|t| - 1])
    ensures RStrip(t + w) == t
    decreases |w|
  {
    if w == [] {
      assert t + w == t;
    } else {
      var s := t + w;
      assert s[|s| - 1] == w[|w| - 1];
      assert s[..|s| - 1] == t + w[..|w| - 1];
      RStripUnique(t, w[..|w| - 1]);
    }
  }

  lemma AllSpaceConcat(a: string, b: string)
    requires AllSpace(a) && AllSpace(b)
    ensures AllSpace(a + b)
  {
    forall j | 0 <= j < |a + b|
      ensures IsSpace((a + b)[j])
    {
      if j < |a| {
        assert (a + b)[j] == a[j];
      } else {
        assert (a + b)[j] == b[j - |a|];
      }
    }
  }

  /** Whitespace on either side of a text does not change what `strip` keeps. */
  lemma StripPadded(w1: string, c: string, w2: string)
    requires AllSpace(w1) && AllSpace(w2)
    ensures Strip(w1 + c + w2) == Strip(c)
  {
    if RStrip(c) == [] {
      StripPaddedBlank(w1, c, w2);
    } else {
      StripPaddedText(w1, c, w2);
    }
  }

  lemma StripPaddedBlank(w1: string, c: string, w2: string)
    requires AllSpace(w1) && AllSpace(w2) && RStrip(c) == []
    ensures Strip(w1 + c + w2) == [] && Strip(c) == []
  {
    RStripDropsSpace(c);
    assert c[0..] == c;
    AllSpaceConcat(w1, c);
    AllSpaceConcat(w1 + c, w2);
    assert [] + (w1 + c + w2) == w1 + c + w2;
    RStripUnique([], w1 + c + w2);
  }

  lemma StripPaddedText(w1: string, c: string, w2: string)
    requires AllSpace(w1) && AllSpace(w2) && RStrip(c) != []
    ensures Strip(w1 + c + w2) == Strip(c)
  {
    RStripPadded(w1, c, w2);
    LStripPadded(w1, RStrip(c));
  }

  /** Trailing whitespace after a text that is not blank goes, the text before it stays. */
  lemma RStripPadded(w1: string, c: string, w2: string)
    requires AllSpace(w2) && RStrip(c) != []
    ensures RStrip(w1 + c + w2) == w1 + RStrip(c)
  {
    var t := RStrip(c);
    var tail := c[|t|..];
    assert c == t + tail;
    RStripDropsSpace(c);
    AllSpaceConcat(tail, w2);
    Regroup(w1, t, tail, w2);
    RStripUnique(w1 + t, tail + w2);
  }

  /** Leading whitespace in front of any text goes together with the text's own. */
  lemma {:induction false} LStripPadded(w1: string, t: string)
    requires AllSpace(w1)
    ensures LStrip(w1 + t) == LStrip(t)
    decreases |w1|
  {
    if w1 == [] {
      assert w1 + t == t;
    } else {
      assert (w1 + t)[0] == w1[0];
      assert (w1 + t)[1..] == w1[1..] + t;
      LStripPadded(w1[1..], t);
    }
  }

  /** `s.strip()` returns a trimmed text unchanged. */
  lemma StripTrimmed(s: string)
    requires Trimmed(s)
    ensures Strip(s) == s
  {
    assert s + [] == s;
    RStripUnique(s, []);
    assert [] + s == s;
    LStripUnique([], s);
  }

  // ---------------------------------------------------------------------
  // Collapsing runs of newlines
  // ---------------------------------------------------------------------

  /** Three newlines in a row start at index `j`. */
  predicate TripleNewlineAt(s: string, j: int)
  {
    0 <= j && j + 3 <= |s| && s[j] == '\n' && s[j + 1] == '\n' && s[j + 2] == '\n'
  }

  ghost predicate NoTripleNewline(s: string)
  {
    forall j :: !TripleNewlineAt(s, j)
  }

  /** Length of the run of newlines that `s` starts with. */
  function NewlineRun(s: string): (n: nat)
    ensures n <= |s|
    ensures forall j :: 0 <= j < n ==> s[j] == '\n'
    ensures n == |s| || s[n] != '\n'
    decreases |s|
  {
    if |s| > 0 && s[0] == '\n' then 1 + NewlineRun(s[1..]) else 0
  }

  /**
   * `re.sub(r'\n{3,}', '\n\n', s)`: every maximal run of three or more
   * newlines becomes exactly two; everything else is copied.
   */
  function CollapseNewlines(s: string): (r: string)
    ensures NoTripleNewline(r)
    ensures |r| <= |s|
    ensures r == [] <==> s == []
    ensures r != [] ==> r[0] == s[0] && r[|r| - 1] == s[|s| - 1]
    decreases |s|
  {
    if s == [] then []
    else if s[0] == '\n' then
      var n := NewlineRun(s);
      var rest := CollapseNewlines(s[n..]);
      var head := if n >= 3 then "\n\n" else s[..n];
      NoTripleAfterShortRun(head, rest);
      head + rest
    else
      var rest := CollapseNewlines(s[1..]);
      NoTripleAfterOther(s[0], rest);
      [s[0]] + rest
  }

  /** At most two newlines followed by a text that does not start with one: no triple appears. */
  lemma NoTripleAfterShortRun(head: string, rest: string)
    requires |head| <= 2
    requires NoTripleNewline(rest)
    requires rest == [] || rest[0] != '\n'
    ensures NoTripleNewline(head + rest)
  {
    forall j
      ensures !TripleNewlineAt(head + rest, j)
    {
      if j >= |head| {
        assert TripleNewlineAt(head + rest, j) ==> TripleNewlineAt(rest, j - |head|);
      }
    }
  }

  lemma NoTripleAfterOther(c: char, rest: string)
    requires c != '\n'
    requires NoTripleNewline(rest)
    ensures NoTripleNewline([c] + rest)
  {
    forall j
      ensures !TripleNewlineAt([c] + rest, j)
    {
      if j >= 1 {
        assert TripleNewlineAt([c] + rest, j) ==> TripleNewlineAt(rest, j - 1);
      }
    }
  }

  /** Text that is already clean is left alone, which makes the clean-up idempotent. */
  lemma {:induction false} CollapseClean(s: string)
    requires NoTripleNewline(s)
    ensures CollapseNewlines(s) == s
    decreases |s|
  {
    if s != [] {
      var n := if s[0] == '\n' then NewlineRun(s) else 1;
      CleanStep(s);
      NoTripleSuffix(s, n);
      CollapseClean(s[n..]);
      Rejoin(s, n);
    }
  }

  /** In clean text the first step of the clean-up copies its first run (or first character) unchanged. */
  lemma CleanStep(s: string)
    requires s != [] && NoTripleNewline(s)
    ensures var n := if s[0] == '\n' then NewlineRun(s) else 1;
            1 <= n <= |s| && CollapseNewlines(s) == s[..n] + CollapseNewlines(s[n..])
  {
    if s[0] == '\n' {
      assert NewlineRun(s) >= 3 ==> TripleNewlineAt(s, 0);
    } else {
      assert [s[0]] == s[..1];
    }
  }

  lemma NoTripleSuffix(s: string, n: nat)
    requires n <= |s| && NoTripleNewline(s)
    ensures NoTripleNewline(s[n..])
  {
    forall j
      ensures !TripleNewlineAt(s[n..], j)
    {
      assert TripleNewlineAt(s[n..], j) ==> TripleNewlineAt(s, j + n);
    }
  }

  lemma CollapseIdempotent(s: string)
    ensures CollapseNewlines(CollapseNewlines(s)) == CollapseNewlines(s)
  {
    CollapseClean(CollapseNewlines(s));
  }

  /** The text with its newlines taken out; the clean-up never touches it. */
  function WithoutNewlines(s: string): string
    decreases |s|
  {
    if s == [] then [] else (if s[0] == '\n' then [] else [s[0]]) + WithoutNewlines(s[1..])
  }

  lemma {:induction false} WithoutNewlinesConcat(a: string, b: string)
    ensures WithoutNewlines(a + b) == WithoutNewlines(a) + WithoutNewlines(b)
    decreases |a|
  {
    if a == [] {
      assert a + b == b;
    } else {
      assert (a + b)[1..] == a[1..] + b;
      WithoutNewlinesConcat(a[1..], b);
    }
  }

  lemma {:induction false} WithoutNewlinesOfNewlines(s: string)
    requires forall j :: 0 <= j < |s| ==> s[j] == '\n'
    ensures WithoutNewlines(s) == []
    decreases |s|
  {
    if s != [] {
      WithoutNewlinesOfNewlines(s[1..]);
    }
  }

  /** Collapsing only ever removes newline characters. */
  lemma {:induction false} CollapseKeepsText(s: string)
    ensures WithoutNewlines(CollapseNewlines(s)) == WithoutNewlines(s)
    decreases |s|
  {
    if s == [] {
    } else if s[0] == '\n' {
      var n := NewlineRun(s);
      var head := if n >= 3 then "\n\n" else s[..n];
      CollapseKeepsText(s[n..]);
      WithoutNewlinesConcat(head, CollapseNewlines(s[n..]));
      WithoutNewlinesOfNewlines(head);
      assert s == s[..n] + s[n..];
      WithoutNewlinesConcat(s[..n], s[n..]);
      WithoutNewlinesOfNewlines(s[..n]);
    } else {
      CollapseKeepsText(s[1..]);
      WithoutNewlinesConcat([s[0]], CollapseNewlines(s[1..]));
    }
  }

  /** A run of newlines in front of `b` lengthens the run `b` starts with. */
  lemma {:induction false} NewlineRunAfterNewlines(w: string, b: string)
    requires forall j :: 0 <= j < |w| ==> w[j] == '\n'
    ensures NewlineRun(w + b) == |w| + NewlineRun(b)
    decreases |w|
  {
    if w == [] {
      assert w + b == b;
    } else {
      assert (w + b)[0] == '\n';
      assert (w + b)[1..] == w[1..] + b;
      NewlineRunAfterNewlines(w[1..], b);
    }
  }

  /** A run of at least two newlines, whatever its length, comes out as exactly two. */
  lemma CollapseRun(w: string, b: string)
    requires |w| >= 2 && forall j :: 0 <= j < |w| ==> w[j] == '\n'
    ensures NewlineRun(b) <= |b|
    ensures CollapseNewlines(w + b) == "\n\n" + CollapseNewlines(b[NewlineRun(b)..])
  {
    NewlineRunAfterNewlines(w, b);
    var n := NewlineRun(b);
    assert (w + b)[0] == '\n';
    assert (w + b)[|w| + n..] == b[n..];
    CollapseAtRun(w + b, b[n..]);
  }

  /** A text that starts with at least two newlines starts its clean-up with exactly two. */
  lemma CollapseAtRun(s: string, rest: string)
    requires s != [] && s[0] == '\n' && NewlineRun(s) >= 2
    requires s[NewlineRun(s)..] == rest
    ensures CollapseNewlines(s) == "\n\n" + CollapseNewlines(rest)
  {
    if NewlineRun(s) < 3 {
      assert s[..NewlineRun(s)] == "\n\n";
    }
  }

  /** The run a text starts with is not changed by what follows a later character. */
  lemma NewlineRunOfPrefix(a: string, t: string)
    requires NewlineRun(a) < |a|
    ensures NewlineRun(a + t) == NewlineRun(a)
  {
    var m := NewlineRun(a);
    assert a + t == a[..m] + (a[m..] + t);
    NewlineRunAfterNewlines(a[..m], a[m..] + t);
  }

  /** A first character that is not a newline is copied, and the clean-up goes on after it. */
  lemma CollapseFrontOther(a: string, x: string)
    requires a != [] && a[0] != '\n'
    ensures CollapseNewlines(a + x) == [a[0]] + CollapseNewlines(a[1..] + x)
  {
    assert (a + x)[1..] == a[1..] + x;
  }

  /** A leading run of newlines that ends inside `a` is treated the same whatever follows `a`. */
  lemma CollapseFrontRun(a: string, x: string)
    requires a != [] && a[0] == '\n' && NewlineRun(a) < |a|
    ensures CollapseNewlines(a + x)
              == (if NewlineRun(a) >= 3 then "\n\n" else a[..NewlineRun(a)]) + CollapseNewlines(a[NewlineRun(a)..] + x)
  {
    var m := NewlineRun(a);
    NewlineRunOfPrefix(a, x);
    assert (a + x)[..m] == a[..m];
    assert (a + x)[m..] == a[m..] + x;
  }

  /**
   * Three newlines and two newlines in the same place collapse alike:
   * together with `CollapseClean` this fixes the clean-up as the rewriting
   * of every run of three or more newlines into exactly two.
   */
  lemma {:induction false} CollapseSqueeze(a: string, b: string)
    ensures CollapseNewlines(a + "\n\n\n" + b) == CollapseNewlines(a + "\n\n" + b)
    decreases |a|
  {
    var three, two := "\n\n\n", "\n\n";
    if forall j :: 0 <= j < |a| ==> a[j] == '\n' {
      CollapseRun(a + three, b);
      CollapseRun(a + two, b);
    } else {
      Associate(a, three, b);
      Associate(a, two, b);
      var n := if a[0] != '\n' then 1 else NewlineRun(a);
      if a[0] != '\n' {
        CollapseFrontOther(a, three + b);
        CollapseFrontOther(a, two + b);
      } else {
        CollapseFrontRun(a, three + b);
        CollapseFrontRun(a, two + b);
      }
      Associate(a[n..], three, b);
      Associate(a[n..], two, b);
      CollapseSqueeze(a[n..], b);
    }
  }
}
