/** Combined shader files in the expected layout
      preamble "#type" spaces ident "\n" body1 "#type" spaces ident "\n" body2
    and the proof that, on such files, the regex split and the separate
    identifier scan agree on where each stage's text is. */
module ShaderFile {
  import opened Base
  import opened JavaText
  import opened ShaderSource

  function Spaces(n: nat): (r: string)
    ensures |r| == n
    ensures forall k :: 0 <= k < n ==> r[k] == ' '
  {
    seq(n, _ => ' ')
  }

  /** A marker line followed by the stage text up to the next marker. */
  function Section(gap: nat, ident: string, body: string): string {
    TypeKeyword + Spaces(gap) + ident + "\n" + body
  }

  /** The parts of a combined source file. */
  datatype CombinedSource = CombinedSource(
    preamble: string,
    gap1: nat, ident1: string, body1: string,
    gap2: nat, ident2: string, body2: string)

  function Render(f: CombinedSource): string {
    f.preamble + Section(f.gap1, f.ident1, f.body1) + Section(f.gap2, f.ident2, f.body2)
  }

  /** The text a stage receives for a section: the rest of the marker line
      (its newline) and the body. */
  function Segment(body: string): string {
    "\n" + body
  }

  /** A non-empty run of ASCII letters, all of which the marker regex takes. */
  predicate IsWord(id: string) {
    id != [] && forall k :: 0 <= k < |id| ==> IsAsciiLetter(id[k])
  }

  /** Each marker is `#type`, at least one space and a word ending the line;
      the preamble and the bodies never mention `#type`. */
  predicate WellFormed(f: CombinedSource) {
    && f.gap1 >= 1 && f.gap2 >= 1
    && IsWord(f.ident1) && IsWord(f.ident2)
    && NoKeywordIn(f.preamble, 0, |f.preamble|) && NoKeywordIn(f.body1, 0, |f.body1|) && NoKeywordIn(f.body2, 0, |f.body2|)
  }

  /** Index of the newline that ends a marker line starting at `o`. */
  function LineEnd(o: nat, gap: nat, ident: string): nat {
    o + 5 + gap + |ident|
  }

  /** Index just past the section starting at `o`. */
  function SectionEnd(o: nat, gap: nat, ident: string, body: string): nat {
    LineEnd(o, gap, ident) + 1 + |body|
  }

  /** `s` holds Section(gap, ident, body) at offset `o`, described character
      by character. */
  predicate SectionAt(s: string, o: nat, gap: nat, ident: string, body: string) {
    var eol := LineEnd(o, gap, ident);
    && SectionEnd(o, gap, ident, body) <= |s|
    && OccursAt(s, o, TypeKeyword)
    && (forall k :: o + 5 <= k < o + 5 + gap ==> s[k] == ' ')
    && (forall k :: 0 <= k < |ident| ==> s[o + 5 + gap + k] == ident[k])
    && s[eol] == '\n'
    && s[eol + 1..SectionEnd(o, gap, ident, body)] == body
  }

  lemma SectionLayout(x: string, gap: nat, ident: string, body: string, y: string)
    ensures SectionAt(x + Section(gap, ident, body) + y, |x|, gap, ident, body)
  {
    var s := x + Section(gap, ident, body) + y;
    var o := |x|;
    var eol := LineEnd(o, gap, ident);
    assert s[o..o + 5] == TypeKeyword;
    assert s[eol] == '\n';
    assert s[eol + 1..SectionEnd(o, gap, ident, body)] == body;
  }

  /** A marker match is in particular an occurrence of `#type`. */
  lemma NoMarkerWithoutKeyword(s: string, lo: nat, hi: nat)
    requires NoKeywordIn(s, lo, hi)
    ensures forall k :: lo <= k < hi ==> !MarkerAt(s, k)
  {
  }

  /** `#type` cannot start inside a stretch free of it when the stretch is
      followed by the end of the text or by another `#type`: the keyword has
      no `#` after its first character. */
  lemma NoKeywordBefore(s: string, lo: nat, hi: nat)
    requires lo <= hi <= |s|
    requires NoKeywordIn(s[lo..hi], 0, |s[lo..hi]|)
    requires hi == |s| || OccursAt(s, hi, TypeKeyword)
    ensures NoKeywordIn(s, lo, hi)
  {
    var t := s[lo..hi];
    forall k | lo <= k < hi
      ensures !OccursAt(s, k, TypeKeyword)
    {
      if k + 5 <= hi {
        assert !OccursAt(t, k - lo, TypeKeyword);
        var inT, inS := t[k - lo..k - lo + 5], s[k..k + 5];
        forall d | 0 <= d < 5
          ensures inT[d] == inS[d]
        {
          assert t[k - lo + d] == s[k + d];
        }
        assert inT == inS;
      } else if hi < |s| && k + 5 <= |s| {
        assert s[hi] == s[hi..hi + 5][0] == '#';
        assert s[k..k + 5][hi - k] == s[hi];
        assert TypeKeyword[hi - k] != '#';
      }
    }
  }

  /** The marker regex matches at a section's `#type` and stops at the end of
      the identifier. */
  lemma SectionMarker(s: string, o: nat, gap: nat, ident: string, body: string)
    requires SectionAt(s, o, gap, ident, body)
    requires gap >= 1 && IsWord(ident)
    ensures MarkerAt(s, o)
    ensures MarkerEnd(s, o) == LineEnd(o, gap, ident)
  {
    assert s[o + 5 + gap + 0] == ident[0];
    RunEndAt(s, o + 5, IsSpace, o + 5 + gap);
    forall k | o + 5 + gap <= k < LineEnd(o, gap, ident)
      ensures IsAsciiLetter(s[k])
    {
      assert s[o + 5 + gap + (k - o - 5 - gap)] == ident[k - o - 5 - gap];
    }
    RunEndAt(s, o + 5 + gap, IsAsciiLetter, LineEnd(o, gap, ident));
  }

  /** From the newline that ends a marker line to the end of its section
      there is no `#type`. */
  lemma SectionBodyClear(s: string, o: nat, gap: nat, ident: string, body: string)
    requires SectionAt(s, o, gap, ident, body)
    requires NoKeywordIn(body, 0, |body|)
    requires SectionEnd(o, gap, ident, body) == |s| || OccursAt(s, SectionEnd(o, gap, ident, body), TypeKeyword)
    ensures NoKeywordIn(s, LineEnd(o, gap, ident), SectionEnd(o, gap, ident, body))
  {
    var eol := LineEnd(o, gap, ident);
    NoKeywordBefore(s, eol + 1, SectionEnd(o, gap, ident, body));
    assert s[eol..eol + 1] == "\n";
  }

  /** The first newline after the keyword and one space is the one that
      ends the marker line. */
  lemma SectionNewline(s: string, o: nat, gap: nat, ident: string, body: string)
    requires SectionAt(s, o, gap, ident, body)
    requires gap >= 1 && IsWord(ident)
    ensures IndexOf(s, "\n", o + 6) == LineEnd(o, gap, ident)
  {
    var eol := LineEnd(o, gap, ident);
    forall k | o + 6 <= k < eol
      ensures !OccursAt(s, k, "\n")
    {
      OccursAtSingle(s, k, '\n');
      if k >= o + 5 + gap {
        assert s[o + 5 + gap + (k - o - 5 - gap)] == ident[k - o - 5 - gap];
      }
    }
    OccursAtSingle(s, eol, '\n');
    IndexOfIsFirst(s, "\n", o + 6, eol);
  }

  /** What lies between that point and the newline: the remaining spaces and
      the identifier. */
  lemma SectionRawIdentifier(s: string, o: nat, gap: nat, ident: string, body: string)
    requires SectionAt(s, o, gap, ident, body)
    requires gap >= 1
    ensures Substring(s, o + 6, LineEnd(o, gap, ident)) == Some(Spaces(gap - 1) + ident)
  {
    var raw := s[o + 6..LineEnd(o, gap, ident)];
    assert raw == Spaces(gap - 1) + ident;
  }

  /** The identifier scan, given where its two searches land. */
  lemma IdentifierAfterIs(s: string, from: nat, o: nat, eol: nat, raw: string)
    requires IndexOf(s, TypeKeyword, from) == o
    requires IndexOf(s, "\n", o + 6) == eol
    requires Substring(s, o + 6, eol) == Some(raw)
    ensures IdentifierAfter(s, from) == Success((Trim(raw), eol))
  {
  }

  /** Scanning for an identifier from `from`, with no `#type` before the
      section, reads the section's identifier and stops at its newline. */
  lemma SectionIdentifier(s: string, o: nat, gap: nat, ident: string, body: string, from: nat)
    requires SectionAt(s, o, gap, ident, body)
    requires gap >= 1 && IsWord(ident)
    requires from <= o
    requires NoKeywordIn(s, from, o)
    ensures IdentifierAfter(s, from) == Success((ident, LineEnd(o, gap, ident)))
  {
    IndexOfIsFirst(s, TypeKeyword, from, o);
    SectionNewline(s, o, gap, ident, body);
    SectionRawIdentifier(s, o, gap, ident, body);
    TrimPadded(Spaces(gap - 1), ident);
    IdentifierAfterIs(s, from, o, LineEnd(o, gap, ident), Spaces(gap - 1) + ident);
  }

  /** Positions of the two sections in a rendered file. */
  function FirstAt(f: CombinedSource): nat {
    |f.preamble|
  }

  function SecondAt(f: CombinedSource): nat {
    SectionEnd(FirstAt(f), f.gap1, f.ident1, f.body1)
  }

  /** `s` is the text of `f`, described section by section. */
  predicate LaidOut(s: string, f: CombinedSource) {
    && SectionAt(s, FirstAt(f), f.gap1, f.ident1, f.body1)
    && SectionAt(s, SecondAt(f), f.gap2, f.ident2, f.body2)
    && SectionEnd(SecondAt(f), f.gap2, f.ident2, f.body2) == |s|
    && s[..FirstAt(f)] == f.preamble
  }

  lemma RenderLayout(f: CombinedSource)
    ensures LaidOut(Render(f), f)
  {
    var first := Section(f.gap1, f.ident1, f.body1);
    var second := Section(f.gap2, f.ident2, f.body2);
    SectionLayout(f.preamble, f.gap1, f.ident1, f.body1, second);
    SectionLayout(f.preamble + first, f.gap2, f.ident2, f.body2, []);
    assert f.preamble + first + second + [] == Render(f);
  }

  /** Positions without a match leave the pieces unchanged. */
  lemma {:induction false} SkipPieces(s: string, from: nat, to: nat, segStart: nat)
    requires segStart <= from <= to <= |s|
    requires forall i :: from <= i < to ==> !MarkerAt(s, i)
    ensures Pieces(s, from, segStart) == Pieces(s, to, segStart)
    decreases |s| - from
  {
    if from < to {
      SkipPieces(s, from + 1, to, segStart);
    }
  }

  /** Neither the preamble nor a body holds `#type` once placed in the file. */
  lemma LaidOutKeywords(s: string, f: CombinedSource)
    requires LaidOut(s, f) && WellFormed(f)
    ensures NoKeywordIn(s, 0, FirstAt(f))
    ensures NoKeywordIn(s, LineEnd(FirstAt(f), f.gap1, f.ident1), SecondAt(f))
    ensures NoKeywordIn(s, LineEnd(SecondAt(f), f.gap2, f.ident2), |s|)
  {
    NoKeywordBefore(s, 0, FirstAt(f));
    SectionBodyClear(s, FirstAt(f), f.gap1, f.ident1, f.body1);
    SectionBodyClear(s, SecondAt(f), f.gap2, f.ident2, f.body2);
  }

  /** The pieces of a text with exactly two marker matches, at `o1` and
      `o2`, ending at `e1` and `e2`. */
  lemma SplitTwoMarkers(s: string, o1: nat, e1: nat, o2: nat, e2: nat)
    requires o1 < e1 <= o2 < e2 < |s|
    requires forall i :: 0 <= i < o1 ==> !MarkerAt(s, i)
    requires MarkerAt(s, o1) && MarkerEnd(s, o1) == e1
    requires forall i :: e1 <= i < o2 ==> !MarkerAt(s, i)
    requires MarkerAt(s, o2) && MarkerEnd(s, o2) == e2
    requires forall i :: e2 <= i < |s| ==> !MarkerAt(s, i)
    ensures SplitOnMarkers(s) == [s[..o1], s[e1..o2], s[e2..]]
  {
    SkipPieces(s, 0, o1, 0);
    SkipPieces(s, e1, o2, e1);
    SkipPieces(s, e2, |s|, e2);
    assert Pieces(s, 0, 0) == [s[..o1], s[e1..o2], s[e2..]];
  }

  /** The text after a section's identifier is its segment. */
  lemma SectionSegment(s: string, o: nat, gap: nat, ident: string, body: string)
    requires SectionAt(s, o, gap, ident, body)
    ensures s[LineEnd(o, gap, ident)..SectionEnd(o, gap, ident, body)] == Segment(body)
  {
  }

  /** Where the marker regex matches in a laid-out well-formed text. */
  lemma LaidOutMatches(s: string, f: CombinedSource)
    requires LaidOut(s, f) && WellFormed(f)
    ensures forall i :: 0 <= i < FirstAt(f) ==> !MarkerAt(s, i)
    ensures MarkerAt(s, FirstAt(f)) && MarkerEnd(s, FirstAt(f)) == LineEnd(FirstAt(f), f.gap1, f.ident1)
    ensures forall i :: LineEnd(FirstAt(f), f.gap1, f.ident1) <= i < SecondAt(f) ==> !MarkerAt(s, i)
    ensures MarkerAt(s, SecondAt(f)) && MarkerEnd(s, SecondAt(f)) == LineEnd(SecondAt(f), f.gap2, f.ident2)
    ensures forall i :: LineEnd(SecondAt(f), f.gap2, f.ident2) <= i < |s| ==> !MarkerAt(s, i)
  {
    LaidOutKeywords(s, f);
    NoMarkerWithoutKeyword(s, 0, FirstAt(f));
    NoMarkerWithoutKeyword(s, LineEnd(FirstAt(f), f.gap1, f.ident1), SecondAt(f));
    NoMarkerWithoutKeyword(s, LineEnd(SecondAt(f), f.gap2, f.ident2), |s|);
    SectionMarker(s, FirstAt(f), f.gap1, f.ident1, f.body1);
    SectionMarker(s, SecondAt(f), f.gap2, f.ident2, f.body2);
  }

  lemma SplitLaidOut(s: string, f: CombinedSource)
    requires LaidOut(s, f) && WellFormed(f)
    ensures SplitOnMarkers(s) == [f.preamble, Segment(f.body1), Segment(f.body2)]
  {
    var o1, o2 := FirstAt(f), SecondAt(f);
    var e1, e2 := LineEnd(o1, f.gap1, f.ident1), LineEnd(o2, f.gap2, f.ident2);
    LaidOutMatches(s, f);
    SplitTwoMarkers(s, o1, e1, o2, e2);
    SectionSegment(s, o1, f.gap1, f.ident1, f.body1);
    SectionSegment(s, o2, f.gap2, f.ident2, f.body2);
    assert s[..o1] == f.preamble;
    assert s[e2..] == s[e2..SectionEnd(o2, f.gap2, f.ident2, f.body2)];
  }

  /** The regex split of a well-formed file has exactly three segments: the
      preamble and the text after each marker's identifier. */
  lemma SplitWellFormed(f: CombinedSource)
    requires WellFormed(f)
    ensures SplitOnMarkers(Render(f)) == [f.preamble, Segment(f.body1), Segment(f.body2)]
  {
    RenderLayout(f);
    SplitLaidOut(Render(f), f);
  }

  lemma IdentifiersLaidOut(s: string, f: CombinedSource)
    requires LaidOut(s, f) && WellFormed(f)
    ensures StageIdentifiers(s) == Success((f.ident1, f.ident2))
  {
    LaidOutKeywords(s, f);
    SectionIdentifier(s, FirstAt(f), f.gap1, f.ident1, f.body1, 0);
    SectionIdentifier(s, SecondAt(f), f.gap2, f.ident2, f.body2, LineEnd(FirstAt(f), f.gap1, f.ident1));
  }

  /** The identifier scan of a well-formed file reads the two identifiers in
      file order. */
  lemma IdentifiersWellFormed(f: CombinedSource)
    requires WellFormed(f)
    ensures StageIdentifiers(Render(f)) == Success((f.ident1, f.ident2))
  {
    RenderLayout(f);
    IdentifiersLaidOut(Render(f), f);
  }

  /** Reference reading of a well-formed file: a stage gets the segment of the
      last marker that names it, or stays null. */
  function StageText(f: CombinedSource, stage: string): Option<string> {
    if f.ident2 == stage then Some(Segment(f.body2))
    else if f.ident1 == stage then Some(Segment(f.body1))
    else None
  }

  /** What constructing a Shader from a well-formed file yields. */
  function ExpectedShader(filepath: string, f: CombinedSource): Result<Shader, ShaderException> {
    if IsStageIdentifier(f.ident1) && IsStageIdentifier(f.ident2) then
      Success(Shader(filepath, StageText(f, VertexIdentifier), StageText(f, FragmentIdentifier)))
    else
      Failure(IllegalStateException(CouldNotOpenMessage(filepath)))
  }

  /** Classifying the three segments of `f` by its identifiers gives the
      reference reading. */
  lemma ClassifyAsReference(f: CombinedSource)
    ensures var r := Classify(f.ident1, f.ident2, [f.preamble, Segment(f.body1), Segment(f.body2)]);
            if IsStageIdentifier(f.ident1) && IsStageIdentifier(f.ident2)
            then r == Success(Stages(StageText(f, VertexIdentifier), StageText(f, FragmentIdentifier)))
            else r.Failure? && r.error.UnexpectedToken?
  {
    var segments := [f.preamble, Segment(f.body1), Segment(f.body2)];
    if f.ident1 == VertexIdentifier {
      assert AssignStage(Stages(None, None), f.ident1, segments, 1) == Success(Stages(Some(segments[1]), None));
    } else if f.ident1 == FragmentIdentifier {
      assert AssignStage(Stages(None, None), f.ident1, segments, 1) == Success(Stages(None, Some(segments[1])));
    }
  }

  /** The constructor on a well-formed file agrees with the reference
      reading. */
  lemma LoadWellFormed(filepath: string, f: CombinedSource)
    requires WellFormed(f)
    ensures LoadShader(filepath, Some(Render(f))) == ExpectedShader(filepath, f)
  {
    SplitWellFormed(f);
    IdentifiersWellFormed(f);
    ClassifyAsReference(f);
  }

  /** Identifiers `vertex` and `fragment`, in either order: each stage gets
      the segment that follows its own marker. */
  lemma DistinctStagesAssigned(filepath: string, f: CombinedSource)
    requires WellFormed(f)
    requires (f.ident1 == VertexIdentifier && f.ident2 == FragmentIdentifier)
          || (f.ident1 == FragmentIdentifier && f.ident2 == VertexIdentifier)
    ensures var vertexBody := if f.ident1 == VertexIdentifier then f.body1 else f.body2;
            var fragmentBody := if f.ident1 == FragmentIdentifier then f.body1 else f.body2;
            LoadShader(filepath, Some(Render(f)))
              == Success(Shader(filepath, Some(Segment(vertexBody)), Some(Segment(fragmentBody))))
  {
    LoadWellFormed(filepath, f);
  }

  /** The same identifier twice: that stage gets the second segment and the
      other stage stays null. */
  lemma DuplicateStageOverwrites(filepath: string, f: CombinedSource)
    requires WellFormed(f)
    requires f.ident1 == f.ident2 && IsStageIdentifier(f.ident1)
    ensures var r := LoadShader(filepath, Some(Render(f)));
            if f.ident1 == VertexIdentifier
            then r == Success(Shader(filepath, Some(Segment(f.body2)), None))
            else r == Success(Shader(filepath, None, Some(Segment(f.body2))))
  {
    LoadWellFormed(filepath, f);
  }

  /** A well-formed file with an identifier other than `vertex` or
      `fragment`, in either position, is rejected with the message naming the
      path. */
  lemma UnknownIdentifierRejected(filepath: string, f: CombinedSource)
    requires WellFormed(f)
    requires !IsStageIdentifier(f.ident1) || !IsStageIdentifier(f.ident2)
    ensures LoadShader(filepath, Some(Render(f))) == Failure(IllegalStateException(CouldNotOpenMessage(filepath)))
  {
    LoadWellFormed(filepath, f);
  }
}
