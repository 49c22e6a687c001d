/**
 * What the section editor promises when a fresh section is written into a
 * description: the new section is the one found afterwards, the text around
 * it survives, and writing the same content twice changes nothing.
 */
module SectionProperties {
  import opened Wrappers
  import opened Text
  import opened Sections
  import opened Seqs

  /**
   * A description the editor handles as intended: it holds no delimiter at
   * all, or at least one complete section.  A lone delimiter is the one
   * shape that is not covered (see `LoneMarkerIsPairedWithNewSection`).
   */
  ghost predicate WellFormed(description: string)
  {
    NoMarker(description) || !NoMatch(description)
  }

  /** In a well-formed description the text kept in front of the section holds no delimiter. */
  lemma BeforeHasNoMarker(description: string)
    requires WellFormed(description)
    ensures NoMarker(SplitAroundSection(description).before)
  {
    var before := SplitAroundSection(description).before;
    var found := FindSection(description);
    if found.None? {
      NoMarkerPrefix(description, |before|);
    } else {
      var i, k := found.value.0, found.value.1;
      SplitAtSearchMatch(description, i, k);
      SearchMatchIsFirstMarkers(description, i, k);
      NoMarkerBeforeFirst(description, i);
      NoMarkerPrefix(description[..i], |before|);
    }
  }

  /** When the search finds the framed section, the split returns the frame, trimmed. */
  lemma SplitFramed(p: string, m: string, q: string)
    requires NoMarker(p) && !EndsWithTilde(p)
    requires NoMarker(m) && !EndsWithTilde(m)
    ensures SplitAroundSection(Framed(p, m, q)) == Parts(RStrip(p), Some(Strip(m)), LStrip(q))
  {
    FramedSection(p, m, q);
    SplitAtFound(Framed(p, m, q), |p|, |p| + |Marker| + |m|);
    CutFramed(p, m, q);
    var r := SplitAroundSection(Framed(p, m, q));
    assert r.before == RStrip(p);
    assert r.section == Some(Strip(m));
    assert r.after == LStrip(q);
  }

  /** Cutting a frame at its two delimiters gives back its three parts, trimmed. */
  lemma CutFramed(p: string, m: string, q: string)
    ensures CutAt(Framed(p, m, q), |p|, |p| + |Marker| + |m|) == Parts(RStrip(p), Some(Strip(m)), LStrip(q))
  {
    var s := Framed(p, m, q);
    var i, k := |p|, |p| + |Marker| + |m|;
    FramedPieces(p, Marker, m, Marker, q);
    assert s[..i] == p;
    assert s[i + |Marker|..k] == m;
    assert s[k + |Marker|..] == q;
  }

  /** The text `add_affiliate_section` appends after the new section. */
  function Trailer(after: string): string
  {
    if after != [] then "\n\n" + after else []
  }

  lemma AssembledIsFramed(before: string, content: string, after: string)
    ensures Assemble(before, content, after)
              == Framed(before + "\n\n", "\n" + content + "\n", Trailer(after))
  {
    var block := "\n\n" + Marker + "\n" + content + "\n" + Marker;
    AssembleShape(before, "\n\n", Marker, "\n", content, Trailer(after));
    if after == [] {
      assert before + block + [] == before + block;
    }
  }

  lemma NewlinesAreSpace()
    ensures AllSpace("\n") && AllSpace("\n\n")
    ensures NoMarker("\n") && NoMarker("\n\n")
  {
  }

  /** Splitting freshly assembled text gives back its parts. */
  lemma SplitOfAssembled(before: string, content: string, after: string)
    requires NoMarker(before) && NoMarker(content)
    requires before == [] || !IsSpace(before[|before| - 1])
    requires after == [] || !IsSpace(after[0])
    ensures SplitAroundSection(Assemble(before, content, after))
              == Parts(before, Some(Strip(content)), after)
  {
    var p := before + "\n\n";
    var m := "\n" + content + "\n";
    AssembledIsFramed(before, content, after);
    NoMarkerConcat(before, "\n\n");
    NoMarkerConcat("\n", content);
    NoMarkerConcat("\n" + content, "\n");
    SplitFramed(p, m, Trailer(after));
    NewlinesAreSpace();
    RStripUnique(before, "\n\n");
    StripPadded("\n", content, "\n");
    if after != [] {
      LStripUnique("\n\n", after);
    }
  }

  /**
   * Splitting the result of `add_affiliate_section` gives back the text that
   * was kept before and after the old section, with the new content as the
   * section.
   */
  lemma SplitAfterAdd(description: string, content: string)
    requires WellFormed(description) && NoMarker(content)
    ensures var parts := SplitAroundSection(description);
            SplitAroundSection(AddSection(description, content))
              == Parts(parts.before, Some(Strip(content)), parts.after)
  {
    var parts := SplitAroundSection(description);
    BeforeHasNoMarker(description);
    SplitOfAssembled(parts.before, content, parts.after);
  }

  /** Round trip: the section read back after writing `content` is `content.strip()`. */
  lemma ExtractAfterAdd(description: string, content: string)
    requires WellFormed(description) && NoMarker(content)
    ensures ExtractSection(AddSection(description, content)) == Some(Strip(content))
  {
    SplitAfterAdd(description, content);
    SplitAgreesWithExtract(AddSection(description, content));
  }

  /** Writing the same content a second time leaves the description as the first write made it. */
  lemma AddIdempotent(description: string, content: string)
    requires WellFormed(description) && NoMarker(content)
    ensures AddSection(AddSection(description, content), content) == AddSection(description, content)
  {
    SplitAfterAdd(description, content);
  }

  /** Every result holds a complete section, so it is well-formed and every later write stays covered. */
  lemma AddIsWellFormed(description: string, content: string)
    ensures !NoMatch(AddSection(description, content))
    ensures WellFormed(AddSection(description, content))
  {
    var parts := SplitAroundSection(description);
    AssembledIsFramed(parts.before, content, parts.after);
    FramedHasMatch(parts.before + "\n\n", "\n" + content + "\n", Trailer(parts.after));
  }

  /** The two delimiters of a frame form a match. */
  lemma FramedHasMatch(p: string, m: string, q: string)
    ensures IsMatch(Framed(p, m, q), |p|, |p| + |Marker| + |m|)
  {
    var s := Framed(p, m, q);
    var k := |p| + |Marker| + |m|;
    FramedPieces(p, Marker, m, Marker, q);
    assert s == (p + Marker) + (m + Marker + q);
    assert s[|p|..|p| + |Marker|] == Marker;
    assert s == (p + Marker + m) + (Marker + q);
    assert s[k..k + |Marker|] == Marker;
  }

  /** With a section present, the text before it is right-stripped, the text after it left-stripped, and both are kept. */
  lemma AddAtSearchMatch(description: string, content: string, i: int, k: int)
    requires IsSearchMatch(description, i, k)
    ensures AddSection(description, content)
              == Assemble(RStrip(description[..i]), content, LStrip(description[k + |Marker|..]))
  {
    SplitAtSearchMatch(description, i, k);
  }

  /** Without a section, the new one is appended to the right-stripped description. */
  lemma AddWithoutSection(description: string, content: string)
    requires NoMatch(description)
    ensures AddSection(description, content)
              == RStrip(description) + ("\n\n" + Marker + "\n" + content + "\n" + Marker)
  {
    assert SplitAroundSection(description) == Parts(RStrip(description), None, "");
    assert AddSection(description, content) == Assemble(RStrip(description), content, "");
  }

  lemma ExampleStrips()
    ensures RStrip("Hello\n\n") == "Hello"
    ensures LStrip("\n\nWorld") == "World"
    ensures NoMarker("Hello\n\n") && NoMarker("\nold content\n")
  {
    NewlinesAreSpace();
    RStripUnique("Hello", "\n\n");
    assert "Hello" + "\n\n" == "Hello\n\n";
    LStripUnique("\n\n", "World");
    assert "\n\n" + "World" == "\n\nWorld";
  }

  lemma ExampleLiterals()
    ensures "Hello" + "\n\n" == "Hello\n\n"
    ensures "\n" + "new content" + "\n" == "\nnew content\n"
    ensures Trailer("World") == "\n\nWorld"
  {
  }

  /** A worked example: `Hello` / `old content` / `World` with `new content`; the old section is replaced in place and the text after it is kept. */
  lemma ReplaceExample()
    ensures AddSection("Hello\n\n" + Marker + "\nold content\n" + Marker + "\n\nWorld", "new content")
              == "Hello\n\n" + Marker + "\nnew content\n" + Marker + "\n\nWorld"
  {
    var d := "Hello\n\n" + Marker + "\nold content\n" + Marker + "\n\nWorld";
    assert d == Framed("Hello\n\n", "\nold content\n", "\n\nWorld");
    ExampleStrips();
    SplitFramed("Hello\n\n", "\nold content\n", "\n\nWorld");
    assert SplitAroundSection(d).before == "Hello";
    assert SplitAroundSection(d).after == "World";
    assert AddSection(d, "new content") == Assemble("Hello", "new content", "World");
    AssembledIsFramed("Hello", "new content", "World");
    ExampleLiterals();
  }

  lemma LoneMarkerAlone()
    ensures NoMatch(Marker)
    ensures SplitAroundSection(Marker) == Parts(Marker, None, "")
  {
    assert forall p, q :: !IsMatch(Marker, p, q);
    RStripUnique(Marker, []);
    assert Marker + [] == Marker;
  }

  /** The first write after a lone delimiter: it is kept, then the fresh section follows. */
  lemma LoneMarkerFirstWrite(content: string)
    ensures AddSection(Marker, content) == Framed([], "\n\n", "\n" + content + "\n" + Marker)
  {
    var m := "\n" + content + "\n";
    var x := Marker + "\n\n" + Marker;
    LoneMarkerAlone();
    AssembledIsFramed(Marker, content, "");
    assert AddSection(Marker, content) == Assemble(Marker, content, "");
    assert Framed(Marker + "\n\n", m, []) == x + m + Marker + [];
    assert x + m + Marker + [] == x + m + Marker;
    Associate(x, m, Marker);
    assert [] + Marker + "\n\n" + Marker == x;
  }

  /**
   * A lone delimiter is not a section, so it stays in the kept text; the next
   * write pairs it with the delimiter it has just inserted.  Reading back then
   * yields an empty section instead of the content, and a second write
   * changes the description again.
   */
  lemma LoneMarkerIsPairedWithNewSection(content: string)
    ensures ExtractSection(AddSection(Marker, content)) == Some("")
    ensures AddSection(AddSection(Marker, content), content) != AddSection(Marker, content)
  {
    var once := AddSection(Marker, content);
    LoneMarkerFirstWrite(content);
    NewlinesAreSpace();
    SplitFramed([], "\n\n", "\n" + content + "\n" + Marker);
    SplitAgreesWithExtract(once);
    RStripUnique([], "\n\n");
    assert [] + "\n\n" == "\n\n";
    var twice := AddSection(once, content);
    assert twice[0] == '\n';
    assert once[0] == '~';
  }

  /** `re.sub` deletes the first section, delimiters included, and carries on after it. */
  lemma RemoveFramed(p: string, m: string, q: string)
    requires NoMarker(p) && !EndsWithTilde(p)
    requires NoMarker(m) && !EndsWithTilde(m)
    ensures RemoveAllSections(Framed(p, m, q)) == p + RemoveAllSections(q)
  {
    var s := Framed(p, m, q);
    var i, k := |p|, |p| + |Marker| + |m|;
    FramedSection(p, m, q);
    RemoveAtFound(s, i, k);
    FramedPieces(p, Marker, m, Marker, q);
    assert s[..i] == p;
    assert s[k + |Marker|..] == q;
  }

  /** A delimiter-free text has no section. */
  lemma NoMarkerNoMatch(s: string)
    requires NoMarker(s)
    ensures NoMatch(s)
  {
  }

  /** Removing the section of freshly assembled text leaves the text before it. */
  lemma RemoveOfAssembled(before: string, content: string)
    requires NoMarker(before) && NoMarker(content)
    ensures RemoveAllSections(Assemble(before, content, [])) == before + "\n\n"
  {
    NewlinesAreSpace();
    NoMarkerConcat(before, "\n\n");
    NoMarkerConcat("\n", content);
    NoMarkerConcat("\n" + content, "\n");
    AssembledIsFramed(before, content, []);
    RemoveFramed(before + "\n\n", "\n" + content + "\n", []);
    RemoveWithoutMatch([]);
    assert before + "\n\n" + [] == before + "\n\n";
  }

  /** Trailing blank lines do not survive `strip`. */
  lemma StripOfRStripped(description: string)
    ensures Strip(RStrip(description) + "\n\n") == Strip(description)
  {
    NewlinesAreSpace();
    RStripUnique(RStrip(description), "\n\n");
  }

  /**
   * On a description that had no section, removing the section just added
   * gives the same text as cleaning up the original description.
   */
  lemma RemoveUndoesAdd(description: string, content: string)
    requires NoMarker(description) && NoMarker(content)
    ensures RemoveSection(AddSection(description, content)) == RemoveSection(description)
  {
    NoMarkerNoMatch(description);
    RemoveSectionWithoutMatch(description);
    var before := RStrip(description);
    NoMarkerPrefix(description, |before|);
    AddWithoutSection(description, content);
    RemoveOfAssembled(before, content);
    StripOfRStripped(description);
  }
}
